# Verified models of the host-side state around a generative model

A Dafny project that models the deterministic state which surrounds the neural network in ONNX Runtime GenAI:
the paged cache of the block drafter, the guidance grammar cache, streaming stop strings, beam search,
sampling helpers, replay of speculative state, JSON strings and the device-side top-k. Where the code keeps
state between calls, the promises are proved over whole runs and not only for single calls.

## What is proved

- **Block drafter** (`Drafter*.dfy`). `Dflash2Drafter` allocates blocks, captures and restores rings and runs
  packed steps. Its invariant says that free list and block lists partition the pool and that every committed
  position of every window still sits, with the row last ingested for it, in its own ring cell. Over whole runs
  (`DrafterMachine.dfy`, `DrafterRun.dfy`) the drafter refines a machine without rings: that machine keeps every
  row it was ever fed and only counts blocks, makes the same decisions about admission, capture and running, and
  the ring cells hold its rows on every window, captures and restores included. A full-attention pool of the
  recommended size runs out only when the committed context exceeds the target blocks.
- **Grammar cache** (`Grammar*.dfy`). The critical sections are functions on a state and methods of a class that
  compute them; callers are program counters that interleave freely. Over all runs: single flight, recency order,
  eviction of the least recently used and no more, exact counters, and no call that cannot end.
- **Delimited guidance** (`Delimited*.dfy`). 32-bit mask words around an abstract grammar cursor; a history's status
  is what its markers say, and runs whose tokens the words allow are clean.
- **Stop strings** (`Utf8.dfy`, `StopString*.dfy`). Several automata over chunks refine a naive scan of the
  stream, and rollback refines replay.
- **Beam search** (`Beam*.dfy`). The 2 * num_beams trick is exact, hypothesis lists are stable sorts, the clone
  buffer never overflows, and scores add up along every path, open or finished.
- **Sampling helpers** (`Nucleus.dfy`, `PartialSort.dfy`, `NgramBan.dfy`).
- **State replay** (`StateReplay.dfy`). Replay composes for all three kinds of state, also in place, and the gated
  recurrence has its closed form.
- **JSON** (`Json*.dfy`, `Provider*.dfy`). Sections 2 and 7 of RFC 8259 and sections 3 and 4 of RFC 3629: the string
  routine reads exactly the string grammar, and any document of strings and objects reaches its handlers in order.
- **Device top-k** (`TopK.dfy`).

Properties that turned out not to hold as one would state them, with the exact condition:

- The early-stopping test of beam search looks at the candidate scores from place b * num_beams on, while entry b's
  own begin at 2 * b * num_beams. It decides by the entry's own candidates exactly for the first entry, and never
  closes an entry too early exactly for the first two (`ExactOnlyForFirst`, `SafeOnlyForTwo`, with inputs).
- The nucleus search above 64 tokens stops at the first length that meets its tail bound, except that it passes over
  the batch ends 16, 64, 256 and so on (`FindNucleus`, `PassedOver`).
- Held-back bytes are always the longest extendable suffix, but not always needed: they are exactly when a stop
  string goes on from them and has no stop string strictly inside it (`HeldIsNecessaryIff`, `HeldMayBeUnnecessary`).
- Beam slots are filled for all logits exactly when the vocabulary has at most one EOS id (`FilledIffOneEos`,
  `Starving`).
- A call that sets a provider option loses the old value exactly when a string cannot be escaped
  (`LastCallDecides`, `OptionLost`).

Where comments and code disagree the code is followed: a comment in src/config.cpp says that the parser does
not support \uXXXX escapes, but src/json.cpp does, surrogate pairs included.

Conventions: bytes are numbers below 256, scores are reals, the exponential is any positive function that
never decreases, decoding and compiling are functions, and `Failure` or `None` stands for an exception.

## Model

| member | source | states |
|---|---|---|
| `Drafter.Dflash2Drafter.constructor` | src/dflash2_drafter.cpp:599-665 | a new drafter satisfies the invariant of every run: all blocks free, nothing tracked |
| `Drafter.Dflash2Drafter.EnsureBlocks` | src/dflash2_drafter.cpp:940-950 | the request gains exactly the missing blocks; it fails exactly when the pool holds fewer than are missing, and then the pool is empty; the partition of the blocks is kept |
| `Drafter.Dflash2Drafter.Release` | src/dflash2_drafter.cpp:952-959 | the request's blocks are appended to the free list, every other request keeps its blocks and its window |
| `Drafter.Dflash2Drafter.ReleaseAll` | src/dflash2_drafter.cpp:961-966 | afterwards nothing is tracked and all blocks of the pool are free, so none was lost |
| `Drafter.Dflash2Drafter.CapturePrefix` | src/dflash2_drafter.cpp:820-875 | made exactly for a windowed request that stands at the position with every position a query can read in its context, if storage is available; the copy holds for every window position the row last ingested there |
| `Drafter.Dflash2Drafter.RestorePrefix` | src/dflash2_drafter.cpp:877-938 | succeeds exactly when a resident checkpoint of the exact position fits the free blocks; then the request reads for each window position the row the captured request last ingested, and no other request notices; otherwise nothing changes |
| `Drafter.Dflash2Drafter.Admit` | src/dflash2_drafter.cpp:773-812 | each outcome as an equivalence over the feed's fields and the free and tracked counts: kept, restored, joined, refused; restored requests enter with the captured history, joining ones with none, nobody else changes; misses are counted exactly; a windowed pool made for m requests refuses an eligible feed only when m are tracked |
| `Drafter.Dflash2Drafter.Join` | src/dflash2_drafter.cpp:778-811 | an eligible request joins exactly when its ring, or its spill and a place, are free; it starts at its first position with an empty history |
| `Drafter.Dflash2Drafter.ServeFeeds` | src/dflash2_drafter.cpp:992-1002 | every decision is the rule's, given the rings taken by earlier feeds; exactly the feeds whose requests end up tracked are served; restored and joining requests have the histories admission gave them |
| `Drafter.Dflash2Drafter.ChooseBlocks` | src/dflash2_drafter.cpp:1004-1025 | a served feed gets a query block exactly when it asked and has its whole window; when none does, the first one lends its slot |
| `Drafter.Dflash2Drafter.BuildBatch` | src/dflash2_drafter.cpp:1084-1137 | the layout built is a correct gather and each request has exactly the blocks it needs; it runs out only when all needs together exceed the pool, and then the pool is over-committed |
| `Drafter.Dflash2Drafter.FillTable` | src/dflash2_drafter.cpp:1238-1261 | every position of every served request is addressed by its column of the block table |
| `Drafter.Dflash2Drafter.RunBatch` | src/dflash2_drafter.cpp:1155-1175 | after the session every served request's history holds the auxiliary row of each ingested position and is otherwise unchanged, and the invariant over all rings holds again |
| `Drafter.Dflash2Drafter.CommitRows` | src/dflash2_drafter.cpp:1352-1356 | each served request's cursor moves past its new positions, no other cursor moves |
| `Drafter.Dflash2Drafter.Propose` | src/dflash2_drafter.cpp:968-1360 | admissions and outcome are exactly what the rules say of the tracked requests; ingested positions get their auxiliary rows, every older position and every other request keeps its history; drafting requests read a complete window; a step refused for lack of blocks was over-committed; the invariant survives every step |
| `DrafterRun.RunScript` | src/dflash2_drafter.cpp:773-1360 | over any script of steps, captures, restores and releases the drafter decides as a machine that keeps every row ever fed and only counts blocks, and its ring cells hold that machine's rows on every window; drafting requests read complete windows of them; the pool runs out only when the committed context exceeds the target blocks |
| `DrafterRun.RunStepOp` | src/dflash2_drafter.cpp:968-1360 | one step of drafter and machine, matching before and after |
| `DrafterRun.RunCaptureOp` | src/dflash2_drafter.cpp:820-875 | a capture is made exactly when the machine would, and saves the machine's rows |
| `DrafterRun.RunReleaseOp` | src/dflash2_drafter.cpp:952-966 | releases keep drafter and machine matching |
| `DrafterRun.StepFollows` | src/dflash2_drafter.cpp:968-1137 | admissions and outcome computed from the blocks are those computed from counts alone |
| `DrafterRun.CapturedSavedAs` | src/dflash2_drafter.cpp:820-875 | a capture of a request with its context saves, for every window position, the row it was fed there |
| `DrafterMachine.AgreeingTracked` | src/dflash2_drafter.cpp:1045-1261 | if histories agree with the machine on windows, the ring cells hold the machine's rows |
| `DrafterMachine.EnterAgrees` | src/dflash2_drafter.cpp:773-812 | admission keeps drafter and machine in agreement: restored requests have what their capture saw |
| `DrafterMachine.RestoredAgrees` | src/dflash2_drafter.cpp:877-938 | a restored ring holds, on its window, the rows fed to the captured request |
| `DrafterMachine.IngestAgrees` | src/dflash2_drafter.cpp:1045-1067 | the rows that a step drops lie before the new window, so dropping them loses nothing that is read |
| `DrafterMachine.FeedAgrees` | src/dflash2_drafter.cpp:1045-1175 | a step keeps drafter and machine in agreement for served and unserved requests, block counts included |
| `DrafterMachine.ConcludedAlike` | src/dflash2_drafter.cpp:992-1104 | what a step comes to depends on cursors and block counts, not on which blocks or bytes |
| `DrafterAdmission.FewBlocksLeft` | src/dflash2_drafter.cpp:537-559 | a windowed pool made for m requests is short of a ring only when m requests are tracked |
| `DrafterAdmission.AdmissionRule` | src/dflash2_drafter.cpp:773-812 | the decision is restored exactly for an untracked, eligible feed at a later position with a resident checkpoint of that position and ring size and a free ring, and joined exactly under the conditions for context start, window, DSpark, checkpoint and room |
| `DrafterAdmission.CapturableIff` | src/dflash2_drafter.cpp:820-827 | which requests can be captured, in terms of positions |
| `DrafterRestore.CaptureAndReturn` | src/dflash2_drafter.cpp:820-938 | capture, release and a step that feeds the checkpoint back: the request is restored at its position and every position its window can be read at holds what it held |
| `DrafterRestore.RestoreRoundTrip` | src/dflash2_drafter.cpp:820-938 | the same in any run of the unbounded machine: the request has every row it had when it was captured |
| `DrafterCache.HasContextIff` | src/dflash2_drafter.cpp:814-818 | it holds exactly when every position that a query block can read lies in the context |
| `DrafterPlan.DraftingIff` | src/dflash2_drafter.cpp:1004-1014 | a feed drafts exactly when it asked and its context holds all that its block reads |
| `DrafterPlan.SomeBlock` | src/dflash2_drafter.cpp:1004-1025 | every step that is laid out has a query block, lent if nobody drafts |
| `DrafterLayout.QueryRowsExist` | src/dflash2_drafter.cpp:1105-1136 | every packed row has a query row of the batch, and block rows have their own |
| `DrafterAdmission.AdmitMore` | src/dflash2_drafter.cpp:992-1002 | one more admission keeps what earlier ones established |
| `DrafterPlan.DraftsChosen` | src/dflash2_drafter.cpp:1004-1025 | blocks chosen row by row are those of the feeds that asked and have their window |
| `DrafterClaims.TooMany` | src/dflash2_drafter.cpp:940-950 | a row that cannot get its blocks means that the step's needs together exceed the pool |
| `DrafterClaims.ClaimsFit` | src/dflash2_drafter.cpp:1084-1104 | a step that got all its blocks fits the pool |
| `DrafterState.PoolHoldsRings` | src/dflash2_drafter.cpp:537-559 | a windowed pool holds exactly one ring of the drafter's own size per request |
| `DrafterState.RingCovers` | src/dflash2_drafter.cpp:626-635 | a ring covers window, query block and one block more |
| `DrafterState.SpillSuffices` | src/dflash2_drafter.cpp:572-583 | context plus a query block needs at most the spill more blocks than the context |
| `DrafterState.PartitionMeaning` | src/dflash2_drafter.cpp:648-649 | the ownership invariant means: free list and block lists have no repeats, are disjoint and cover all block ids |
| `DrafterState.RingInjective` | src/dflash2_drafter.cpp:1253-1258 | positions closer together than the ring is long never share a cell |
| `DrafterState.TakeOwned` | src/dflash2_drafter.cpp:944-948 | moving the last free block to a request keeps the partition |
| `DrafterState.ReleaseOwned` | src/dflash2_drafter.cpp:952-959 | freeing all that a request holds keeps the partition |
| `DrafterState.RestoreOwned` | src/dflash2_drafter.cpp:903-921 | moving the last free blocks to a new request keeps the partition |
| `DrafterPool.RingAccounting` | src/dflash2_drafter.cpp:773-812 | in a windowed pool the free blocks are the blocks beyond one ring per tracked request |
| `DrafterPool.RestoredTracked` | src/dflash2_drafter.cpp:903-921 | a restored request reads from its own blocks, for every window position, what the saved ring holds |
| `DrafterPool.RestoreKeepsTracked` | src/dflash2_drafter.cpp:903-921 | copying a checkpoint into other blocks leaves a request's window as it was |
| `DrafterPool.ExhaustedMeansOvercommitted` | src/dflash2_drafter.cpp:572-583 | if a pool sized for some target blocks is empty while a request is below its share, the committed context exceeds those target blocks |
| `DrafterLayout.AppendShare` | src/dflash2_drafter.cpp:1105-1136 | the loops append one request's context and block rows as the layout function says |
| `DrafterLayout.AppendedBuilt` | src/dflash2_drafter.cpp:1084-1137 | adding a request keeps the layout an inverse pair, with every request's rows, query rows and lengths where the graph looks for them and the maxima exact |
| `DrafterLayout.RowMapIsPermutation` | src/dflash2_drafter.cpp:1105-1125 | the row map is a permutation of all block and context rows and the block row index inverts it on block rows |
| `DrafterStep.PlanShares` | src/dflash2_drafter.cpp:1045-1067 | every served feed ingests the last rows its query block can read, at the positions they belong to |
| `DrafterStep.GatherAux` | src/dflash2_drafter.cpp:1155-1175 | the packed rows of a request are the auxiliary rows of its ingested positions |
| `DrafterStep.ContextRowsAreGathered` | src/dflash2_drafter.cpp:1105-1175 | the k-th packed context row of a request sits at past length + k and gathers the auxiliary row of that position |
| `DrafterStep.FillTableRow` | src/dflash2_drafter.cpp:1243-1259 | a windowed row repeats the ring over all columns, a full-attention row lists the blocks and pads with -1 |
| `DrafterStep.FilledRowAddresses` | src/dflash2_drafter.cpp:1099-1103 | the width chosen is enough: each position of the request has a column that names its block |
| `DrafterStep.RunSession` | src/dflash2_drafter.cpp:1238-1350 | the session's effect is one write per packed row, to the cell its block table names |
| `DrafterCache.BatchWritesDistinct` | src/dflash2_drafter.cpp:1084-1137 | no two packed rows of a batch write the same cell |
| `DrafterCache.ServedKeepsWindow` | src/dflash2_drafter.cpp:1045-1104 | a step keeps a served request's window complete: old positions survive, new ones hold their rows |
| `DrafterCache.UnservedKeepsWindow` | src/dflash2_drafter.cpp:1238-1261 | a step does not touch the window of a request it does not serve |
| `DrafterCache.DraftReadsCompleteWindow` | src/dflash2_drafter.cpp:814-818 | with HasContext, each position a query can read holds its row, in a cell no later position or query row shares |
| `DrafterCommit.CommitTracked` | src/dflash2_drafter.cpp:1045-1261 | the ring refines the unbounded cache across a step, for all tracked requests at once |
| `DrafterCommit.StepIngests` | src/dflash2_drafter.cpp:1105-1175 | layout and gather together: every ingested position's history is the row of that position |
| `DrafterCommit.DraftedWindow` | src/dflash2_drafter.cpp:1004-1014 | a request that got a query block has its whole window in the cache when it is read |
| `DrafterCommit.BudgetBeforeStep` | src/dflash2_drafter.cpp:1084-1104 | a budget that held before a step holds for what the step will commit |
| `DrafterCommit.OvercommittedWhenEmpty` | src/dflash2_drafter.cpp:940-950 | running out of blocks within budget means the committed context does not fit the target blocks |
| `GrammarCache.ValidateGuidanceRequest` | src/constrained_logits_processor.cpp:55-69 | which requests are off, on, half-specified and unsupported, each exactly |
| `GrammarCache.KeyInjective` | src/constrained_logits_processor.cpp:316-328 | keys of supported requests agree only when type, data and flag agree |
| `GrammarCache.CacheableFits` | src/constrained_logits_processor.cpp:386-393 | a key that fits beside the pending bytes always fits after eviction |
| `GrammarCache.LookupConsistent` | src/constrained_logits_processor.cpp:371-402 | lookup and reservation keep counters, byte sums, recency list and bounds exact |
| `GrammarCache.PublishConsistent` | src/constrained_logits_processor.cpp:413-429 | publishing keeps them exact, and at most 64 ready entries |
| `GrammarCache.EraseConsistent` | src/constrained_logits_processor.cpp:432-444 | forgetting a failed entry keeps them exact |
| `GrammarCache.EvictForExact` | src/constrained_logits_processor.cpp:388-393 | eviction for a key drops the last entries of the recency list, and one fewer would not have made room |
| `GrammarCache.EvictToCountExact` | src/constrained_logits_processor.cpp:423-425 | eviction for one more ready entry drops one exactly when there are 64 |
| `GrammarCache.CachedExactly` | src/constrained_logits_processor.cpp:373-402 | a miss gets an entry exactly when its key fits beside the pending ones; ready is a hit, pending a wait |
| `GrammarCache.GuidanceCache.EvictLeastRecentlyUsed` | src/constrained_logits_processor.cpp:144-150 | drops exactly the least recently used ready entry |
| `GrammarCache.GuidanceCache.FindOrReserve` | src/constrained_logits_processor.cpp:371-402 | the loop and the updates under the lock compute the lookup of the model, a hit moving its key to the front |
| `GrammarCache.GuidanceCache.PublishReady` | src/constrained_logits_processor.cpp:413-429 | likewise for publishing |
| `GrammarCache.GuidanceCache.EraseFailed` | src/constrained_logits_processor.cpp:432-444 | likewise for erasing |
| `GrammarFlight.StepKeeps` | src/constrained_logits_processor.cpp:363-452 | every atomic step of every caller keeps the invariant over cache, promises and callers |
| `GrammarFlight.EveryRunKeepsInv` | src/constrained_logits_processor.cpp:363-452 | it holds after any interleaving of any number of callers; hits, waits and misses add up to the lookups |
| `GrammarFlight.SingleFlight` | src/constrained_logits_processor.cpp:363-452 | no two callers compile for the same cached key at once |
| `GrammarFlight.NeverDisappears` | src/constrained_logits_processor.cpp:416-421 | a pending entry is never evicted, so the error about a disappeared entry is unreachable |
| `GrammarFlight.ReceivesOwnGrammar` | src/constrained_logits_processor.cpp:404-451 | a caller only receives the grammar compiled for its own type, data and flag |
| `GrammarFlight.WaitersHaveOwners` | src/constrained_logits_processor.cpp:379-451 | a promise someone waits on is resolved or has an owner on its way to resolve it |
| `GrammarFlight.HitsSucceed` | src/constrained_logits_processor.cpp:376-378 | a ready entry's promise has its value or is about to get it, never an error |
| `GrammarRecency.ListIsByRecency` | src/constrained_logits_processor.cpp:363-452 | after any interleaving the recency list is the ready keys ordered by their latest hit or publication, newest first |
| `GrammarRecency.EvictsOldest` | src/constrained_logits_processor.cpp:144-150 | every ready key that a step drops was used less recently than every ready key that stays |
| `GrammarRecency.EvictsNoMoreThanNeeded` | src/constrained_logits_processor.cpp:388-425 | keys are dropped only for a reservation or a publication, and with one key more it would not have fitted |
| `GrammarRecency.CountersAreExact` | src/constrained_logits_processor.cpp:376-386 | hits, waits, misses and evictions are the numbers of such events in the run |
| `GrammarProgress.NeverStuck` | src/constrained_logits_processor.cpp:363-452 | a call that is not over can be continued, by itself or by the owner of the promise it waits for |
| `GrammarProgress.EveryCallEnds` | src/constrained_logits_processor.cpp:363-452 | any run can be continued to one in which all calls are over, in a bounded number of steps |
| `DelimitedGuidance.ClearOne` | src/constrained_logits_processor.cpp:516-526 | clearing a bit of a mask word forbids that token and no other |
| `DelimitedGuidance.SetOne` | src/constrained_logits_processor.cpp:521-523 | setting a bit allows that token and changes no other |
| `DelimitedGuidance.BodyIsSinceOpening` | src/constrained_logits_processor.cpp:478-503 | after any run the body cursor is a fresh cursor plus exactly the tokens since the opening marker |
| `DelimitedGuidance.ClosesOnlyWhenAccepting` | src/constrained_logits_processor.cpp:488-497 | every close of a run is at the closing marker, after which the grammar, given exactly the tokens since the opening marker, permitted its primary EOS |
| `DelimitedGuidance.ShownMeaning` | src/constrained_logits_processor.cpp:510-529 | the words shown allow: no EOS, no opening marker, the closing marker exactly when accepting, else what the body allows |
| `DelimitedGuidance.OfferedSteps` | src/constrained_logits_processor.cpp:505-530 | a token whose bit the words show commits, and is no EOS and no opening marker in an open region |
| `DelimitedGuidance.MaskedRunsAreClean` | src/constrained_logits_processor.cpp:505-530 | a run of tokens whose bits were shown never faults, and at no position puts an EOS or opening marker inside an open region or closes one the grammar would not end |
| `DelimitedGuidance.Generate` | src/constrained_logits_processor.cpp:478-530 | masks and commits alternating on a processor, with any sampler that picks shown tokens: every token is the sampler's pick from the mask then ready, no commit faults, the history is clean at every position, and it stops early only when no mask is ready or the sampler stops |
| `DelimitedGuidance.MaskedBodyFollowsLastMarker` | src/constrained_logits_processor.cpp:478-530 | in such a run the body is what follows the last opening marker of the whole history |
| `DelimitedGuidance.OpenMask` | src/constrained_logits_processor.cpp:510-529 | the word-wise loop computes the words shown |
| `DelimitedGuidance.DelimitedProcessor.Create` | src/constrained_logits_processor.cpp:458-476 | constructs exactly for distinct in-vocabulary markers and EOS ids that are neither |
| `DelimitedGuidance.DelimitedProcessor.GetReadyMask` | src/constrained_logits_processor.cpp:505-530 | the empty mask exactly while no region is open; a failure exactly when the body's mask has the wrong size; otherwise the delimited mask |
| `DelimitedRuns.RunIs` | src/constrained_logits_processor.cpp:478-503 | a history commits exactly if the grammar lets every token inside an open region through, and then stands where its markers say |
| `DelimitedRuns.FailsAtFirst` | src/constrained_logits_processor.cpp:478-503 | otherwise it fails at the first token that is not let through, with the reason |
| `DelimitedRuns.ClosedOffersAll` | src/constrained_logits_processor.cpp:505-507 | after any history whose regions are closed every token may be picked, and the opening marker opens a region |
| `DelimitedGuidance.DelimitedProcessor.CommitTokens` | src/constrained_logits_processor.cpp:478-503 | commits up to the first fault, ending in the status of the state machine |
| `DelimitedGuidance.DelimitedProcessor.Reset` | src/constrained_logits_processor.cpp:576-580 | back to dormant with a fresh body |
| `DelimitedGuidance.DelimitedProcessor.Clone` | src/constrained_logits_processor.cpp:582-587 | an independent processor in the same status |
| `DelimitedGuidance.CloneContinues` | src/constrained_logits_processor.cpp:582-587 | whatever is committed next, original and clone stop at the same token with the same fault and then show the same mask |
| `Utf8.AcceptsIsWellFormed` | src/stop_string_matcher.cpp:13-48 | the byte-wise test accepts exactly the concatenations of encoded scalar values |
| `Utf8.EncodeAllInjective` | src/stop_string_matcher.cpp:13-48 | different scalar sequences have different encodings |
| `Utf8.IsValidUtf8` | src/stop_string_matcher.cpp:23-48 | the loop decides well-formedness |
| `StopStringMatching.ValidateStopStrings` | src/stop_string_matcher.cpp:50-67 | accepts exactly the documented configurations and names the first offending entry |
| `StopStringMatching.BuildFailureTable` | src/stop_string_matcher.cpp:69-93 | entry k is the longest proper border of the prefix of length k + 1 |
| `StopStringMatching.AdvanceAutomaton` | src/stop_string_matcher.cpp:118-125 | one step moves from the longest matching prefix of the stream to that of the stream plus a byte |
| `StopStringMatching.AdvanceAll` | src/stop_string_matcher.cpp:114-131 | after each byte all automata are in their states, and the ending stop string that is longest, then lowest, is reported |
| `StopStringSpec.FirstMatchIsFirst` | src/stop_string_matcher.cpp:95-166 | the naive scan finds the occurrence with earliest end, then longest, then lowest index, and none exactly when there is none |
| `StopStringSpec.FirstMatchSticky` | src/stop_string_matcher.cpp:95-107 | later bytes do not change a match |
| `StopStringSpec.HeldIsLongestExtendable` | src/stop_string_matcher.cpp:144-152 | what is held back is the longest suffix that is a proper prefix of some stop string |
| `StopStringSpec.ReleasedBeforeMatch` | src/stop_string_matcher.cpp:133-141 | no released byte belongs to a later match, so the subtraction at the match never underflows |
| `StopStringSpec.ReleasedMonotone` | src/stop_string_matcher.cpp:145-166 | released output only grows |
| `StopStringSpec.ReleasedExactly` | src/stop_string_matcher.cpp:133-166 | what is not released is exactly the longest suffix that could still grow into a stop string, or the match and what follows |
| `StopStringSpec.HeldIsNecessaryIff` | src/stop_string_matcher.cpp:144-152 | some continuation makes the first held byte start the match exactly when a stop string goes on from the held suffix and has no stop string strictly inside it |
| `StopStringSpec.FirstMatchUnique` | src/stop_string_matcher.cpp:95-166 | only one match is first in that order |
| `StopStringSpec.HeldMayBeUnnecessary` | src/stop_string_matcher.cpp:144-152 | a concrete hold-back that no continuation can need |
| `StopStringMatching.StopStringMatcher.Create` | src/stop_string_matcher.cpp:69-93 | the throwing constructor: a fresh matcher exactly for valid configurations |
| `StopStringMatching.StopStringMatcher.Consume` | src/stop_string_matcher.cpp:95-166 | match, released text, withheld suffix and stored size are functions of the whole stream, not of its chunks |
| `StopStringMatching.StopStringMatcher.TakeSafeOutput` | src/stop_string_matcher.cpp:168-172 | hands out what is cleared, once |
| `StopStringMatching.StopStringMatcher.Flush` | src/stop_string_matcher.cpp:174-182 | without a match, all output together is the whole stream |
| `StopStringMatching.StopStringMatcher.Reset` | src/stop_string_matcher.cpp:184-193 | back to the initial state |
| `StopStringMatching.StopStringMatcher.ConsumeAll` | src/stop_string_matcher.cpp:95-166 | any two ways of cutting a stream give the same match and the same released bytes |
| `StopStringMatching.NothingLost` | src/stop_string_matcher.cpp:108-166 | before a match, released bytes followed by the live pending ones are the whole stream |
| `StopStringMatching.ConsistentDetermines` | src/stop_string_matcher.cpp:184-193 | stream, output taken and compaction point determine every field |
| `StopStringControl.StopStringController.ObserveToken` | src/stop_string_controller.cpp:23-32 | the controller stays what a fresh one would be after these tokens; the match is the stream's |
| `StopStringControl.StopStringController.RollbackTo` | src/stop_string_controller.cpp:34-51 | refuses counts beyond the history; otherwise the state is that of the shorter history |
| `StopStringControl.StopStringController.DecodeIntoMatcher` | src/stop_string_controller.cpp:58-60 | one more token decoded through the stream and fed to the matcher |
| `StopStringControl.StateOfUnique` | src/stop_string_controller.cpp:23-60 | only one state belongs to a token history |
| `StopStringControl.RollbackEqualsReplay` | src/stop_string_controller.cpp:23-60 | after any script of observations and rollbacks the state equals that of a fresh controller fed the remaining tokens |
| `BeamHypotheses.RankedIsStableSort` | src/beam_search_scorer.cpp:19-39 | inserting one by one ranks everything added as the stable descending sort |
| `BeamHypotheses.StableSortUnique` | src/beam_search_scorer.cpp:19-39 | that sort is unique |
| `BeamHypotheses.TakeInsert` | src/beam_search_scorer.cpp:23-32 | keeping only the best n before an insertion loses nothing of the best n after it |
| `BeamHypotheses.HypothesisList.Add` | src/beam_search_scorer.cpp:19-39 | the array holds the first beams of the ranking of everything ever added |
| `BeamTop.AlwaysFills` | src/beam_search_scorer.cpp:115-152 | with at most one EOS id in the vocabulary at least num_beams of the 2 * num_beams candidates continue |
| `BeamTop.TwoEosStarve` | src/beam_search_scorer.cpp:115-152 | when two EOS ids are ahead of all other tokens no candidate continues |
| `BeamTop.GapPutsAhead` | src/search.cpp:104-123 | logits with a wide enough gap put two ids ahead of all other extensions of every beam |
| `BeamFill.FilledIffOneEos` | src/beam_search_scorer.cpp:115-152 | for any beam scores and any normalizer of logits: no logits leave a slot empty, however ties are broken, if and only if the vocabulary has at most one EOS id |
| `BeamFill.Starving` | src/search.cpp:104-123 | with two EOS ids, logits and candidates of a step in which nothing continues |
| `BeamTop.KeptAreBest` | src/beam_search_scorer.cpp:115-152 | any continuing extension is kept or scores no better than each kept one |
| `BeamSearching.TopTwoKExact` | src/search.cpp:125-163 | looking at 2 * num_beams candidates leaves exactly the num_beams best continuing extensions of all |
| `BeamSearching.RaisedExtension` | src/search.cpp:112-123 | an extension's score is the parent's score plus the token's log-probability |
| `BeamSearching.AddScores` | src/search.cpp:112-123 | every row's score is added to all of that row's log-probabilities |
| `BeamSearching.SelectBatch` | src/search.cpp:148-163 | a batch entry's candidates are the first places of a descending order of all its extensions, taken apart into beam, token and score |
| `BeamSearching.BeamSearch.SelectTop` | src/search.cpp:101-176 | one step: done entries are padded, others get their best extensions and finish what ended, every new row is its parent row plus the token; a vocabulary that is too small is refused |
| `BeamSearching.BeamSearch.AppendTokens` | src/search.cpp:326-343 | every row of an entry starts with the entry's prompt; prompts that are too long change nothing |
| `BeamSearching.BeamSearch.Finalize` | src/search.cpp:383-388 | adds the open beams of entries that are not done, within the buffer; a second call changes nothing |
| `BeamRun.RunSteps` | src/search.cpp:101-176 | over a whole run every row is its first ancestor's row plus the tokens along its path, every open beam's score its first ancestor's score plus the log-probabilities along that path, and every finished text such a row whose score adds the EOS id's log-probability, normalized |
| `BeamSequences.Sequences.Append` | src/search.cpp:354-381 | new row i is old row next_indices[i] followed by its token, in the other buffer |
| `BeamSequences.Sequences.Begin` | src/search.cpp:335-342 | row i starts as the prompt of entry i / num_beams |
| `BeamScorer.BeamSearchScorer.constructor` | src/beam_search_scorer.cpp:46-82 | a fresh scorer with room for all clones of a run; only the first beam of each entry starts at zero |
| `BeamScorer.BeamSearchScorer.Finish` | src/beam_search_scorer.cpp:131-137 | the clone goes to the end of the buffer and no finished text of any entry changes |
| `BeamScorer.BeamSearchScorer.ProcessBatch` | src/beam_search_scorer.cpp:115-171 | the first candidates that continue fill the slots, those among the first num_beams that end are finished |
| `BeamScorer.BeamSearchScorer.Process` | src/beam_search_scorer.cpp:84-171 | the same for all entries, with buffer use bounded by the lengths processed; a full list closes its entry exactly by the source's test |
| `BeamHypotheses.HypothesisList.CanImprove` | src/beam_search_scorer.cpp:41-44 | true exactly when fewer finished texts than beams score at least as high |
| `BeamStopping.ExactOnlyForFirst` | src/beam_search_scorer.cpp:155-170 | the early-stopping test decides by an entry's own candidates for all inputs if and only if the entry is the first |
| `BeamStopping.SafeOnlyForTwo` | src/beam_search_scorer.cpp:155-170 | it never closes an entry that its own candidates could improve, for all inputs, if and only if the entry is one of the first two |
| `BeamScorer.BeamSearchScorer.Finalize` | src/beam_search_scorer.cpp:173-196 | every finished list is full afterwards, and the buffer had room |
| `BeamScorer.BeamSearchScorer.GetBeamHypothesis` | src/beam_search_scorer.cpp:198-202 | the tokens of the i-th text in the stable descending order of everything finished |
| `BeamScorer.StepFits` | src/beam_search_scorer.cpp:68-70 | strictly growing lengths keep buffer use within the triangular bound |
| `BeamScorer.TriClosed` | src/beam_search_scorer.cpp:68-70 | the bound is max_length * (max_length + 1) / 2 per beam |
| `Nucleus.FindNucleus` | src/sampling_distribution.h:139-206 | top tokens in order that carry the share p; the shortest such prefix up to 64 tokens; above, the first length whose tail bound is met, where batch ends below the vocabulary size are passed over |
| `Nucleus.PassedOver` | src/sampling_distribution.h:162-180 | eighty equal tokens and p of one fifth: the bound is first met at 16, a batch end, and the search stops at 17 |
| `Nucleus.Scan` | src/sampling_distribution.h:162-174 | a cutoff found by the tail bound carries enough |
| `Nucleus.ExactCutoff` | src/sampling_distribution.h:186-203 | the exact cutoff is the shortest prefix that carries enough |
| `Nucleus.BoundSuffices` | src/sampling_distribution.h:168-173 | meeting the tail bound implies carrying the share |
| `Nucleus.SumOfPermutation` | src/sampling_distribution.h:192-195 | every order of the vocabulary has the same total weight |
| `Nucleus.TopWeighsMost` | src/sampling_distribution.h:157-160 | among all sets of k tokens the k top ones weigh most |
| `Nucleus.ShortestIsSmallest` | src/sampling_distribution.h:186-203 | no smaller set of tokens carries the share when no shorter prefix does |
| `PartialSorting.PartialSort` | src/sampling_distribution.h:157-160 | a permutation that puts the best of the tail, in order, behind the untouched prefix |
| `NgramBan.ApplyNoRepeatNgramToLogits` | src/sampling_distribution.h:64-79 | sets the logits of exactly the tokens that would recreate an n-gram |
| `NgramBan.ApplyNoRepeatNgram` | src/search.cpp:433-470 | does the same to every row of the flat score buffer by the row's own tokens |
| `NgramBan.ImplementationsAgree` | src/search.cpp:433-470 | on equal rows the two implementations leave equal rows |
| `NgramBan.AppendKeepsDistinct` | src/sampling_distribution.h:64-79 | one more token keeps the n-grams distinct exactly when it recreates none |
| `NgramBan.NeverRepeats` | src/search.cpp:433-470 | no n-gram ever repeats in a run of unbanned picks |
| `NgramBan.Generate` | src/sampling_distribution.h:100-110 | bans and picks that skip lowered logits alternate: no n-gram of the text repeats, and it stops early only when no logit is left |
| `StateReplay.ReplayConv` | src/state_update_replay.h:77-101 | every channel's window becomes the last state_width items of old window and kept values, also in place |
| `StateReplay.SlideCompose` | src/state_update_replay.h:77-101 | sliding by a and then by b is sliding by both |
| `StateReplay.ConvComposes` | src/state_update_replay.h:77-101 | replaying what is kept of a and then of b equals replaying both at once, whatever else the buffers hold |
| `StateReplay.ReplayIndexer` | src/state_update_replay.h:26-75 | refuses exactly uncommitted lengths and replays that do not fit, changing nothing; otherwise the index is the replayed one, all writes in bounds |
| `StateReplay.PushAllCounts` | src/state_update_replay.h:58-73 | the lengths after a replay are quotient and remainder by the compress ratio |
| `StateReplay.KeyRows` | src/state_update_replay.h:60-68 | key row keyLength + g is the token that completed group g, older rows are kept |
| `StateReplay.BufferRows` | src/state_update_replay.h:60-72 | the buffer holds the tokens since the last completed group |
| `StateReplay.IndexComposes` | src/state_update_replay.h:26-75 | replaying a then b is accepted exactly when both at once is, with the same result |
| `StateReplay.PushAllCommitted` | src/state_update_replay.h:33-49 | an accepted replay leaves lengths that the next one accepts |
| `StateReplay.FitsIff` | src/state_update_replay.h:41-47 | a replay is accepted exactly when the index after it is within its capacity and an int32 |
| `StateReplay.FreshCommitted` | src/state_update_replay.h:31-40 | an empty index is acceptable exactly when its buffer can hold all but one token of a group |
| `StateReplay.ReplayGated` | src/state_update_replay.h:103-130 | every cell ends as its old value times all kept decays of its head plus the sum of key times delta of each transition times the later decays, also in place |
| `StateReplay.EvolveClosed` | src/state_update_replay.h:115-127 | the recurrence comes to that closed form |
| `StateReplay.EvolveJoined` | src/state_update_replay.h:115-127 | a cell evolves through joined transitions as through the two parts in turn |
| `StateReplay.OnlyKeptMatter` | src/state_update_replay.h:115-127 | what the buffers hold beyond the kept transitions does not matter |
| `StateReplay.GatedComposes` | src/state_update_replay.h:103-130 | replaying a transitions and then b equals replaying both at once |
| `JsonStrings.EscapeJsonString` | src/config.cpp:3439-3476 | escapes the string, and fails exactly on control characters without a short escape |
| `JsonStrings.RoundTrip` | src/config.cpp:3439-3476 | reading an escaped string and a closing quote gives the string and stops right after the quote |
| `JsonStrings.JsonReader.ParseString` | src/json.cpp:268-326 | the cursor loop computes the string and the rest that the function of the remaining text gives |
| `JsonStrings.JsonReader.ParseHex4` | src/json.cpp:237-248 | reads exactly four hexadecimal digits or fails |
| `JsonStrings.JsonReader.ParseEscape` | src/json.cpp:281-318 | reads one escape, surrogate pairs included |
| `JsonStrings.UnicodeRoundTrip` | src/json.cpp:300-316 | the escape of any scalar value, pair or single, reads back as its UTF-8 encoding |
| `JsonStrings.StringKeepsUtf8` | src/json.cpp:268-326 | inside valid UTF-8 the value is valid and the reader stops at a character boundary |
| `JsonStrings.ParsedStringIsUtf8` | src/json.cpp:250-326 | well-formed text gives a well-formed value and a well-formed rest |
| `JsonGrammar.StringReads` | src/json.cpp:237-326 | every sequence of characters of the string grammar, in any spelling, reads as what it means, up to the closing quote |
| `JsonGrammar.StringIs` | src/json.cpp:237-326 | whatever is accepted is such a sequence with that meaning |
| `ProviderParsing.ParsesDocument` | src/json.cpp:111-194 | parsing the generated document adds exactly the option to exactly the provider and reads to the end |
| `ProviderDocuments.DocumentReads` | src/json.cpp:111-194 | any document of strings and objects, with white space wherever it may be, has the effect of its handlers in order and is read to the end |
| `ProviderParsing.OptionParser.RunValue` | src/json.cpp:147-194 | the value routine and its handlers do what the parsing function says |
| `ProviderParsing.OptionParser.RunObject` | src/json.cpp:111-145 | likewise for objects |
| `ProviderParsing.IndexOf` | src/config.cpp:344-356 | the first provider of a name, or their number |
| `ProviderNames.NormalizeIdempotent` | src/config.cpp:219-252 | a normalized provider name is its own normal form |
| `ProviderNames.NormalizeIs` | src/config.cpp:217-252 | every name a provider goes by, in any casing, with or without the shared suffix, becomes its canonical name, and every other name stays |
| `ProviderOptions.SetStores` | src/config.cpp:3478-3513 | a successful call leaves the option with exactly the given value, every other option of every provider with its values, and all names normalized |
| `ProviderOptions.RenamedNormalized` | src/config.cpp:366-372 | whatever a document held, the list it leaves has only normalized names |
| `ProviderOptions.LastCallDecides` | src/config.cpp:3478-3513 | over any sequence of calls on any list a document left, an option holds exactly what the last call for it set: that value once, or nothing if that call failed |
| `ProviderOptions.OptionLost` | src/config.cpp:3478-3513 | a call with the value byte 0x01 fails and leaves an option that had a value with none |
| `ProviderOptions.ValuesErased` | src/config.cpp:3487-3498 | erasing takes the values of that option of that provider and no others |
| `ProviderOptions.Config.constructor` | src/config.cpp:366-372 | a loaded configuration has only normalized names |
| `ProviderOptions.Config.SetAll` | src/config.cpp:3478-3513 | a sequence of calls leaves the list that the calls one after another give, normalized |
| `ProviderOptions.Config.SetProviderOption` | src/config.cpp:3478-3513 | succeeds exactly when all strings can be escaped; on failure the provider is listed and old values are already erased |
| `TopKMerge.TopK.constructor` | src/beam_search_topk.h:51-56 | all slots empty |
| `TopKMerge.TopK.Insert` | src/beam_search_topk.h:28-49 | the item takes its place in the order and the last slot drops out; an empty item changes nothing |
| `TopKMerge.TopK.Reduce` | src/beam_search_topk.h:59-65 | merging the best of two disjoint sets gives the best of their union |
| `TopKMerge.InsertTop` | src/beam_search_topk.h:28-49 | inserting keeps the slots the best of everything so far |
| `TopKMerge.MergeTop` | src/beam_search_topk.h:59-65 | merged top lists are the top list of the union |
| `TopKMerge.TopUnique` | src/beam_search_topk.h:28-65 | the slots are fixed by the set of items alone |
| `TopKMerge.RunTop` | src/beam_search_topk.h:28-65 | any tree of insertions and merges ends with the best max_k by value, then id, padded with empty slots |
| `TopKMerge.OrderFree` | src/beam_search_topk.h:28-65 | any two such trees over the same items end with the same slots |

## Left out

- Sessions, tensors, device copies, graph capture and the widths chosen for it: a drafter run is one write per packed row, a capture or restore a copy per block.
- Snapshot storage tiers and limits: a checkpoint is resident, evicted or unavailable, and whether a capture can be stored is an input.
- Draft tokens, lattices, anchor rows and embeddings of a drafter step: only what the cache depends on is modelled.
- Overflow checks of sizes and int32 metadata in the drafter: numbers are unbounded.
- Drafter.Dflash2Drafter.Propose: takes at most one feed per request, and checkpoints that CapturePrefix made, as the engine produces them; after a step that throws the budget is not claimed.
- DrafterRun.RunScript: ends with the first step that throws, and after it says nothing about the number of blocks each request holds.
- Drafter.Dflash2Drafter.RestorePrefix: reading a resident snapshot does not fail.
- Drafter.Dflash2Drafter.constructor: session, snapshot cache and tensor setup are not part of it.
- Grammar compilation, tokenizer assets and allocation failures inside the cache's critical sections: compiling succeeds or fails as a step of its own.
- GrammarFlight.EveryRunKeepsInv: compile-time statistics are not counted.
- The computation of masks by the grammar engine and their application to logits: a grammar is a mask and an acceptance function of the committed tokens.
- The tokenizer behind the stop-string controller: a decoder is a function of the token history; offsets do not wrap.
- BeamScorer.BeamSearchScorer.Process: the count of open entries behind IsDone is not kept, and slots that no candidate reaches keep their old content, which the source leaves uninitialized before the first step.
- BeamScorer.BeamSearchScorer.GetBeamHypothesis: asks only for slots in use, which Finalize makes all of them.
- BeamSearching.BeamSearch.AppendTokens: starts a search; appending to a search that has rows is not modelled.
- Log-softmax before beam scores are added: a step begins with log-probabilities.
- Greedy search, top-k sampling, temperature and the repetition and length penalties: one pass over a row each, with no state between calls.
- Rounding, NaN and infinities of floating-point scores, and infinite scores in the top-k.
- StateReplay.ReplayIndexer: returns the lengths instead of writing them to a view, takes whole rows as elements, and does not model compress ratios of 2^31 or more, whose cast to int32 is negative.
- The snapshot branch of state replay: a single copy.
- Bit operations of the UTF-8 encoder and of surrogate pairs are written as arithmetic.
- ProviderParsing.OptionParser.RunValue: numbers and device filtering objects are refused as outside the model, and after a failure nothing is said about the list of providers.
- Arrays, numbers and trailing text of JSON documents, and the line numbers in error messages.
- The rest of the configuration, the API wrappers, logging and file access.
