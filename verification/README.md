# SuperExplorer: verified models of its stateful cores

This project models the parts of SuperExplorer in which a wrong interleaving, a wrong key or a wrong
rule would go unnoticed, and proves what each of them promises.

* **Folder-size scheduler** (`FolderSizeWork`, `FolderSizeClaims`, `FolderSizeScheduler`, `FolderSizeGuarantees`,
  `FolderSizeRetries`, `FolderSizeAttempts`, `FolderSizePromises`).
  `PendingFolderSizeWork` is the record behind the mutex; every method is one critical section and is tied to a
  function on its value. `FolderSizeClaims` lets any number of workers interleave those sections.
  `FolderSizeScheduler` is the program's one worker thread, cut at every point where it gives up the lock, beside
  the UI thread, a clock, shutdown and a receiver that may vanish. A ledger records what became of every request;
  `FolderSizeRetries` counts requeues on the trace itself, `FolderSizeAttempts` builds runs that reach the counts, and
  `FolderSizePromises` tells what each section comes to in the record's own fields.
* **Async renderers and their keys** (`RenderKeys`, `RenderKeyBuffers`, `SizeMapRequests`, `SizeMapNodes`,
  `SizeMapKeys`, `AsyncRenderer`, `RenderSessions`). The byte
  encoders are functions with a continuation argument, the buffer methods are proved to write exactly those bytes,
  and the bounded bridge between the UI and its render worker runs with the worker scheduled arbitrarily.
  `SizeMapRequests` builds a size-map request from a folder's items, with the mappings that only the host sees;
  `SizeMapNodes` says what the renderer is told and where its rectangles lead.
* **Extension column cache** (`ColumnCache`, `ColumnCacheHistory`), **size-map projection** (`SizeMapProjection`,
  `SizeMapOther`), **code-lines worker** (`CodeLinesBatch`, `CodeLinesWorker`), **lock-owner merge** (`LockOwners`).
* **Virtual container generations** (`VirtualGenerations`): opens, commits, undos and navigations over the container
  table and the refresh-remap table, with the three critical sections of each background job interleaved freely.
* **Evidence ledger** (`EvidenceLedger`, `EvidenceGraph`, `EvidenceReplacement`, `EvidenceRules`,
  `EvidenceSupersession`, `EvidenceClosure`, `EvidenceGuarantees`): the hash-linked log and its append script, the
  worklists over the policy graph, the replacement walks, every cross-record rule, the closure gate composed of all of
  them, and what a silent gate comes to in the ledger's and the policy's own fields.

## Where the code and its documentation differ, and what is false of the code

* The refresh remaps are documented as one-shot bridges (`crates/explorer-app/src/brokered_service.rs:120-122`).
  The walk does not consume them: a bridge serves its old generation until the next commit or undo of the container.
  `VirtualGenerations.ServedIffCurrentOrBridged` is the exact rule; `BridgeOutlivesCommit` is the concrete run.
* A batch query may return `Ok` with requests unanswered, when it was cancelled or the worker stopped
  (`crates/explorer-app/src/mft_query.rs:339-345`, `365`, `399`). The scheduler model allows it; conservation is
  proved without assuming that `Ok` means everything was answered: what such a query leaves behind is cancelled
  or left at shutdown.
* A size map may show a plan made for another request. The key (`crates/explorer-app/src/application.rs:419-435`) does
  not cover the request's mappings, from which the worker makes the cached plan (`application.rs:581-585`): neither the
  names and details of omitted items nor where an item leads. `RenderSessions.CrowdedFolderShowsStalePlan`: in a folder
  of 257 unmeasured files one omitted file is measured, and the plan that still calls it partial is answered.
  `SizeMapKeys.KeyedIffFullyShown` is the exact condition, with item targets fixed: the key determines the request if
  and only if nothing is omitted, the guard at `application.rs:3738`. `SizeMapKeys.KeyedIffEmpty`: with targets that may
  change, if and only if the folder is empty. Two scopes with the same 64-bit hash share keys whatever is omitted, so
  both count only other folders whose scope hash does not coincide with this folder's by chance (`ScopesTold`); the
  failing halves, `OmittedIsNotKeyed` and `ItemsAreNotKeyed`, find the other request within the very same scope.
  What does hold of every size map is `RenderSessions.SizeMapSession`.
* A request is not limited to 15 requeues. A directory invalidation that wakes the worker inside a back-off cuts the
  back-off short while the three-second budget runs on: `FolderSizeRetries.RetryBudget` bounds the requeues of one
  submission by 15 and one for each such wake-up, and `FolderSizeAttempts.NoBoundAcrossEarlyWakes` gives, for every `n`,
  a run at a standing clock with `n` requeues. Without such wake-ups fifteen is attained
  (`FolderSizeAttempts.BudgetIsAttained`). A cancel of the tab and generation or a new submission starts afresh.
* Siblings of a newly focused folder are said to stay in flight (`application.rs:1353-1355`). What is cancelled is a
  request, with all its claims: `FolderSizePromises.SiblingLost` is a request that holds claims under two parents, and
  `FolderSizePromises.SiblingStaysIff` the exact condition: no claim of the sibling's request lies elsewhere.
* A stale cache ticket is not always refused: a window change that drops its directory's epoch can revive it
  (`ColumnCacheHistory.WindowChangeRevivesStaleTicket`). `ColumnCacheHistory.TicketAcceptedIffCurrent` is the exact
  rule over every run: a ticket is accepted if and only if its directory was invalidated equally often, modulo 2^64,
  since its epoch was last dropped, now and when the ticket was issued.
* A navigation reads the container and the remaps under two locks. `VirtualGenerations.TornLookupServesReplaced`: if
  the container is opened anew in between, a generation is served that is no longer current.
* The append script writes no revalidation fields and checks neither the event id nor the sub-check key.
  `EvidenceClosure.LocalResultKeepsSettledIff`: it keeps supersessions settled if and only if its task is neither
  superseded nor dependent on a superseded one. `EvidenceRules.AppendKeepsSound`: it keeps a sound ledger sound if and
  only if the event id is new and no other task has used the sub-check key.

## Reading the models

Time is a natural number of milliseconds, chosen by the environment and never running backwards. Unordered iteration
(hash maps, Python sets) is an arbitrary choice of the next element, so a result holds for every order. Rust's
saturating `u64` sums are written out. Hashing a ledger record is a function parameter; where a statement needs it, no
two records of the ledgers at hand collide. Plugins, providers, the folder service and signature checks are function
parameters or free choices of a step; nothing is assumed of their answers unless a statement names it.

## Model

| member | source | states |
|---|---|---|
| FolderSizeWork.PendingFolderSizeWork.QueueRequest | crates/explorer-app/src/application.rs:1373-1386 | a request is queued unless its identity is already queued or claimed; nothing else changes |
| FolderSizeWork.PendingFolderSizeWork.Enqueue | crates/explorer-app/src/application.rs:1346-1370 | one submission moves the focus, preempts, and queues each admissible request, in order |
| FolderSizeWork.PendingFolderSizeWork.PreemptOthers | crates/explorer-app/src/application.rs:1356-1363 | cancels exactly the claims outside the focus whose folder has another parent |
| FolderSizeWork.PendingFolderSizeWork.TakeBatch | crates/explorer-app/src/application.rs:1398-1453 | the in-place removal loop equals the claim function: the batch returned, the rest kept, claims recorded |
| FolderSizeWork.PendingFolderSizeWork.Finish | crates/explorer-app/src/application.rs:1456-1469 | releases the claim only if this request holds it, and hands back the first-attempt time |
| FolderSizeWork.PendingFolderSizeWork.CancelContext | crates/explorer-app/src/application.rs:1483-1500 | forgets queued requests, claims and first-attempt times of a context |
| FolderSizeWork.PendingFolderSizeWork.RetryOrBypass | crates/explorer-app/src/application.rs:1535-1554 | requeues if and only if no bypass is armed and less than 3000 ms passed since the first attempt, which it then remembers, with a back-off of 200 ms; else arms the bypass for 30 s and leaves the queue alone |
| FolderSizeClaims.ExtractCut | crates/explorer-app/src/application.rs:1434-1442 | the removal loop takes every request of the context up to some cut, keeps all others in order, and stops early only when full |
| FolderSizeClaims.ClaimTakesFocusedPrefix | crates/explorer-app/src/application.rs:1398-1453 | a claim is the first `limit` live requests of one context in queue order, in focus whenever the focus has live work; the rest keeps its order |
| FolderSizeClaims.SchedulerExclusivity | crates/explorer-app/src/application.rs:1346-1500 | in every interleaving with any number of workers: queued identities distinct, none also claimed, at most one non-cancelled unfinished claim each |
| FolderSizeClaims.FinishReleasesOnlyItsOwnClaim | crates/explorer-app/src/application.rs:1456-1469 | finishing a stale request never releases another request's claim on the same identity |
| FolderSizePromises.SubmissionPreempts | crates/explorer-app/src/application.rs:1350-1366 | a submission whose last request moves the focus cancels exactly the requests that hold a claim of another tab or generation on a folder that is no sibling |
| FolderSizePromises.SiblingStaysIff | crates/explorer-app/src/application.rs:1353-1363 | a claimed sibling of the newly focused folder stays in flight if and only if its request holds no claim on a folder elsewhere outside the focus |
| FolderSizePromises.SiblingLost | crates/explorer-app/src/application.rs:1353-1363 | a request with claims under two parents loses the sibling claim too |
| FolderSizePromises.SubmissionQueues | crates/explorer-app/src/application.rs:1367-1386 | a submission appends, in order, each of its requests whose identity is neither queued, claimed nor submitted earlier in it, and nothing else |
| FolderSizePromises.CancelTakesOut | crates/explorer-app/src/application.rs:1483-1500 | a cancel takes out the queue entries and claims of its request and the first attempts of its tab and generation; all else stays, in order |
| FolderSizePromises.CancelFrees | crates/explorer-app/src/application.rs:1483-1500 | after a cancel the folder is queued at once by its next submission |
| FolderSizePromises.ClaimServesOldest | crates/explorer-app/src/application.rs:1398-1453 | inside a back-off a claim changes nothing; else it ends the back-off and begins with the oldest live request in focus, or the oldest live one when none is in focus, all of one context |
| FolderSizeGuarantees.InvariantStep | crates/explorer-app/src/application.rs:1713-1915 | each critical section of worker, UI and clock keeps exclusivity, conservation and the retry pace |
| FolderSizeGuarantees.EveryRequestInOnePlace | crates/explorer-app/src/application.rs:1502-1672 | at every moment each entry of a request is in exactly one of queued, held, being published, answered, dropped after a cancel, merged, or abandoned at shutdown or without a receiver |
| FolderSizeGuarantees.AnsweredExactlyOnce | crates/explorer-app/src/application.rs:1751-1914 | when the worker rests on an empty queue, a request neither cancelled nor merged was answered once for each time it entered, through any number of retries |
| FolderSizeGuarantees.NoClaimLeaks | crates/explorer-app/src/application.rs:1893-1913 | a resting worker holds no claim |
| FolderSizeGuarantees.MergesOnlyIntoQueued | crates/explorer-app/src/application.rs:1539-1551 | when a retry is decided the claim is released, and the retry merges if and only if a request of its identity is queued |
| FolderSizeGuarantees.BypassHoldsUntilExact | crates/explorer-app/src/application.rs:1543-1580 | once armed, the bypass stays armed and nothing is requeued until an exact answer is accepted |
| FolderSizePromises.AnswerDecides | crates/explorer-app/src/application.rs:1502-1580 | an exact answer is sent and ends the bypass; a partial one or a retryable failure goes to the retry budget with the remembered first attempt, or this one; any other failure falls back at once |
| FolderSizePromises.RetryDecides | crates/explorer-app/src/application.rs:1535-1554 | in every reachable state: decided less than 3000 ms after the first attempt with no bypass armed, the folder is queued afterwards; otherwise the bypass is armed and the folder falls back |
| FolderSizePromises.AskedIffNoBypass | crates/explorer-app/src/application.rs:1815-1821 | the service is asked if and only if no bypass is armed or its window is over |
| FolderSizePromises.WakesAndStops | crates/explorer-app/src/application.rs:1719-1750 | the worker claims on a changed directory at once, on queued requests after the back-off, and never after a shutdown |
| FolderSizePromises.CancelledIsNotAnswered | crates/explorer-app/src/application.rs:1502-1672 | over every run, a request cancelled before the worker decided about it is not answered any more |
| FolderSizeRetries.StepSpends | crates/explorer-app/src/application.rs:1713-1915 | each requeue of a folder takes one from what is left of its budget, each back-off cut short gives one back, nothing else adds to it |
| FolderSizeRetries.RetryBudget | crates/explorer-app/src/application.rs:1301-1307 | after a submission queued a folder, until it is submitted anew, cancelled or the queue shuts down, it is requeued at most 15 times plus once for each wake-up that cut a back-off short |
| FolderSizeAttempts.RequeuedAnyNumberOfTimes | crates/explorer-app/src/application.rs:1719-1750 | for every n there is a run at a standing clock that requeues the folder n times, all but the first behind an early wake-up |
| FolderSizeAttempts.NoBoundAcrossEarlyWakes | crates/explorer-app/src/application.rs:1719-1750 | from the empty queue, one submission can be requeued n times for every n |
| FolderSizeAttempts.BudgetIsAttained | crates/explorer-app/src/application.rs:1301-1307 | with every back-off waited out, a submitted folder whose service stays busy is requeued exactly 15 times by 2800 ms: the bound is attained |
| FolderSizeRetries.FirstAttemptSurvives | crates/explorer-app/src/application.rs:1511-1549 | from any requeue on, over any run without a new submission, a cancel or a shutdown, the table remembers the time decided with then whenever the folder is queued or claimed, and every later decision gets that time |
| FolderSizeRetries.MergesOnlyIntoNewer | crates/explorer-app/src/application.rs:1511-1551 | the request a retry merges into was submitted after the claim was finished and before the retry |
| RenderKeys.CellRenderKeyInjective | crates/explorer-app/src/application.rs:215-248 | cell keys are equal if and only if the contexts are, field by field |
| RenderKeys.SizeMapSnapshotInjective | crates/explorer-app/src/application.rs:256-286 | snapshot bytes are equal if and only if nodes, viewport, selection, theme and revisions are |
| RenderKeys.ScopedInjective | crates/explorer-app/src/application.rs:399-417 | scoped keys are equal if and only if contexts, host scope hashes and package incarnations are |
| RenderKeys.SizeMapRenderKeyIdempotent | crates/explorer-app/src/application.rs:419-435 | the key and the revised context do not depend on the incoming revision, so computing the key twice changes nothing |
| RenderKeys.SizeMapRenderKeyInjective | crates/explorer-app/src/application.rs:419-435 | two size-map keys are equal if and only if the inputs agree on everything but the incoming revision |
| RenderKeyBuffers.ByteBuffer.AppendOptionPluginValue | crates/explorer-app/src/application.rs:178-201 | extends the buffer by exactly the encoding of the optional value |
| RenderKeyBuffers.ComputeCellKey | crates/explorer-app/src/application.rs:215-248 | the buffer the encoder fills is the cell key |
| RenderKeyBuffers.AppendSnapshot | crates/explorer-app/src/application.rs:256-286 | extends the buffer by exactly the snapshot encoding |
| RenderKeyBuffers.ComputeSizeMapKey | crates/explorer-app/src/application.rs:419-435 | overwrites the revision and returns the size-map key |
| SizeMapRequests.BuildRequest | crates/explorer-app/src/application.rs:3660-3863 | no request when public ids collide, else the request this folder's context determines: public nodes, Other, mappings, revision and key |
| SizeMapNodes.RequestTells | crates/explorer-app/src/application.rs:3708-3796 | node k shows the k-th shown item under its own id, name, kind, size and status, the rest follows as one node, and every parent named is the node of the item's parent |
| SizeMapNodes.StatusTells | crates/explorer-app/src/application.rs:374-397 | which items are complete, partial, failed, cancelled, limited or unavailable, for all diagnostics |
| SizeMapNodes.RestIsKnown | crates/explorer-app/src/application.rs:3755-3776 | the rest has a size if and only if every omitted item was measured without error |
| SizeMapNodes.RectanglesLead | crates/explorer-app/src/application.rs:3681-3785 | exactly the nodes sent have a mapping; each leads to its item, and the rest's lists every omitted item |
| SizeMapNodes.RequestSelects | crates/explorer-app/src/application.rs:3807-3816 | exactly the shown items among the selected ones are selected, in order |
| SizeMapNodes.ScanTells | crates/explorer-app/src/application.rs:3817-3827 | the first diagnostic that names a way of scanning, else the default text |
| SizeMapNodes.FrameTells | crates/explorer-app/src/application.rs:3797-3847 | generation, viewport and theme of the request |
| SizeMapKeys.KeyCovers | crates/explorer-app/src/application.rs:419-435 | keys of two folders are equal if and only if their public contexts and scopes are |
| SizeMapKeys.SameKeySameItems | crates/explorer-app/src/application.rs:3660-3725 | unless their two scope hashes coincide by chance, folders with equal keys have the same navigation context and the same items, and show and omit the same ones |
| SizeMapKeys.SomeHashTells | crates/explorer-app/src/application.rs:408-416 | for every folder some 64-bit scope hash coincides with no other scope's |
| SizeMapKeys.KeyedIffFullyShown | crates/explorer-app/src/application.rs:3738-3776 | with item targets fixed, and chance collisions with this folder's scope hash apart, the key determines the request if and only if nothing is omitted |
| SizeMapKeys.OmittedIsNotKeyed | crates/explorer-app/src/application.rs:3738-3776 | when something is omitted, a folder of the very same scope and targets has the same key and another request, whatever the hash |
| SizeMapKeys.MeasuringOneOfTwoIsUnseen | crates/explorer-app/src/application.rs:349-372 | with two partial items omitted, measuring one changes its announced detail and not the key |
| SizeMapKeys.KeyedIffEmpty | crates/explorer-app/src/application.rs:3685-3708 | with item targets free, and chance collisions with this folder's scope hash apart, the key determines the request if and only if there are no items |
| SizeMapKeys.ItemsAreNotKeyed | crates/explorer-app/src/application.rs:3685-3708 | when there are items, a folder of the very same scope has the same key and another request, whatever the hash |
| SizeMapProjection.SameProjection | crates/explorer-app/src/application.rs:300-347 | what is shown depends on ids, parents and sizes, not on completeness |
| AsyncRenderer.WorkKeepsValid | crates/explorer-app/src/application.rs:447-485 | whatever the worker does alone keeps the bridge's invariant |
| AsyncRenderer.AsyncRenderer.DrainReady | crates/explorer-app/src/application.rs:487-504 | drains every result, keeps the invariant, leaves at most one request more than the queue holds, reports whether anything was drained, and loses no cached plan but by a clear at capacity |
| AsyncRenderer.DrainRetains | crates/explorer-app/src/application.rs:494-500 | while old and drained plans fit under the cap all are kept; beyond it the cache holds exactly the last ((n - 1) mod cap) + 1 of the n plans |
| AsyncRenderer.AsyncRenderer.RenderOrEnqueue | crates/explorer-app/src/application.rs:506-532 | keeps the invariant (pending equals the keys outstanding, no key twice or cached, queue capacity + 2, cache cap); a plan is the fallback or a cached render of a request sent with an equal key; a missing key ends up cached, pending, or facing a full queue; while everything outstanding fits beside the cache, nothing cached is lost and a result that was waiting is answered |
| RenderSessions.Session | crates/explorer-app/src/application.rs:506-532 | over a whole session with any worker schedule and any key, each plan shown is that context's fallback or was rendered from a context shown by then with an equal key |
| RenderSessions.CellSession | crates/explorer-app/src/application.rs:447-533 | with the real cell key and its capacities 256 and 512: each plan is the fallback or was rendered from that very context |
| RenderSessions.RenderSizeMap | crates/explorer-app/src/application.rs:3660-3863 | one frame refuses colliding ids, else shows the fallback or a plan of a request sent with the same key |
| RenderSessions.SizeMapSession | crates/explorer-app/src/application.rs:563-649 | with the real requests and the capacities 8 and 4: each plan is a fallback or was rendered from the request of a folder shown by then with an equal key |
| RenderSessions.FullyShownShowsItsOwn | crates/explorer-app/src/application.rs:563-649 | with nothing omitted, item targets fixed and no two scopes shown in the session hashed alike, each plan is a fallback or was rendered from that very request |
| RenderSessions.MeasuredItemShowsStalePlan | crates/explorer-app/src/application.rs:607-648 | in any folder with two partial items omitted, once one is measured the bridge answers with the plan of the earlier request |
| RenderSessions.CrowdedFolderShowsStalePlan | crates/explorer-app/src/application.rs:607-648 | such a folder exists: with 257 unmeasured files the bridge answers with the plan of another request |
| SizeMapProjection.Partition | crates/explorer-app/src/application.rs:300-347 | at most 255 shown, every shown child's parent shown, roots left out only behind 255 larger ones, children admitted greedily in one pass |
| SizeMapProjection.SortOrdered | crates/explorer-app/src/application.rs:312-317 | the stable sort puts larger roots first and keeps source order among equals |
| SizeMapProjection.GreedyIsUnique | crates/explorer-app/src/application.rs:318-341 | the projection's description admits one result only |
| SizeMapProjection.ProjectionIsPartition | crates/explorer-app/src/application.rs:342-346 | shown and omitted indexes partition all nodes |
| SizeMapProjection.OmittedClosedUnderChildren | crates/explorer-app/src/application.rs:326-341 | with distinct ids, a child of an omitted node is omitted |
| SizeMapOther.OtherBytes | crates/explorer-app/src/application.rs:3755-3776 | no total while an omitted node is incomplete, else the saturated bytes of the omitted nodes without omitted parent |
| SizeMapOther.OtherConservesBytes | crates/explorer-app/src/application.rs:3755-3776 | that total is the sum over omitted nodes of bytes minus the bytes of their present children |
| SizeMapOther.DisplayConservesBytes | crates/explorer-app/src/application.rs:300-347 | shown nodes and Other together account for every node's own bytes once |
| ColumnCache.ColumnCacheStore.TrimTotal | crates/explorer-app/src/application.rs:988-1006 | the total the eviction loop compares is min(u64 max, true sum) in any order |
| ColumnCache.ColumnCacheStore.TelemetryTotal | crates/explorer-app/src/application.rs:1019-1033 | the published fold is the same number |
| ColumnCache.ColumnCacheStore.TrimMemoryBudget | crates/explorer-app/src/application.rs:997-1017 | ends within the limit, evicts nothing younger than a survivor, and nothing more than needed |
| ColumnCache.ColumnCacheStore.Insert | crates/explorer-app/src/application.rs:1125-1155 | rejects a stale ticket unchanged; otherwise, when it fits, the entry is stored beside all others, or alone after a clear at 16384 entries; total within the limit, telemetry exact |
| ColumnCache.FittingInsert | crates/explorer-app/src/application.rs:1125-1155 | an accepted insert never changes another entry, and trims nothing when the true total is within the limit |
| ColumnCache.ColumnCacheStore.Get | crates/explorer-app/src/application.rs:1113-1123 | returns the entry of that path and mtime only under the ticket's directory and epoch, else whatever the persistent layer has |
| ColumnCache.ColumnCacheStore.InvalidateDirectory | crates/explorer-app/src/application.rs:1157-1166 | bumps the wrapping epoch and drops the directory's entries |
| ColumnCache.ColumnCacheStore.RetainWindow | crates/explorer-app/src/application.rs:1064-1079 | keeps entries and epochs inside the window only, and refreshes the telemetry unless the window is the same |
| ColumnCacheHistory.AdmittedIffInside | crates/explorer-app/src/application.rs:1047-1062 | a ticket is handed out for exactly the files inside the window, a root apart, and is good at once |
| ColumnCacheHistory.LookupAfter | crates/explorer-app/src/application.rs:1064-1169 | an invalidation takes away exactly its directory's values, a window change exactly what lies outside |
| ColumnCacheHistory.EpochsAfterWindow | crates/explorer-app/src/application.rs:1072-1076 | a window change keeps exactly the epochs inside |
| ColumnCacheHistory.InsertedIsFound | crates/explorer-app/src/application.rs:1109-1155 | right after an accepted insert that fits, the same ticket finds the value |
| ColumnCacheHistory.FoundStaysFound | crates/explorer-app/src/application.rs:1064-1169 | over every run a value once found is found until it is invalidated, windowed out, trimmed or replaced |
| ColumnCacheHistory.RunKeeps | crates/explorer-app/src/application.rs:1048-1166 | over every run a directory's epoch counts its invalidations since it was last dropped, modulo 2^64, and entries are last accepted values |
| ColumnCacheHistory.LookupIsLastAccepted | crates/explorer-app/src/application.rs:1113-1155 | over every run a lookup returns the last value accepted for that key since its directory's last invalidation |
| ColumnCacheHistory.LookupFindsIffSameEpoch | crates/explorer-app/src/application.rs:1113-1121 | over every run a ticket finds a cached value if and only if both tickets saw equally many invalidations since the drop (modulo 2^64) |
| ColumnCacheHistory.LookupIsFresh | crates/explorer-app/src/application.rs:1113-1155 | while the epoch was never dropped, the value also comes from work admitted after the last invalidation |
| ColumnCacheHistory.TicketAcceptedIffCurrent | crates/explorer-app/src/application.rs:1125-1134 | over every run a ticket is accepted if and only if its directory was invalidated equally often (modulo 2^64) since the last drop, now and at its issue |
| ColumnCacheHistory.UndroppedTicketAcceptedIffFresh | crates/explorer-app/src/application.rs:1125-1134 | while the epoch was never dropped, that is: no invalidation since the ticket was issued |
| ColumnCacheHistory.WindowChangeRevivesStaleTicket | crates/explorer-app/src/application.rs:1064-1079 | a window change away from an invalidated directory makes its stale ticket acceptable again |
| CodeLinesBatch.BatchAnswersEachOnce | crates/explorer-app/src/application.rs:2509-2626 | a batch's results answer each of its requests exactly once |
| CodeLinesBatch.BatchTells | crates/explorer-app/src/application.rs:2509-2626 | a request is told NotPrepared if and only if it cannot be prepared; dispatched request k is told row k of an accepted answer, IncompleteBatch beyond the rows, and ProviderUnavailable or ProviderFailed otherwise |
| CodeLinesBatch.DispatchedPositions | crates/explorer-app/src/application.rs:2453-2507 | exactly the preparable requests are dispatched, in order |
| CodeLinesBatch.RowsListed | crates/explorer-app/src/application.rs:2562-2626 | the rows are those of the applied groups, one group after the other |
| CodeLinesBatch.ProcessBatch | crates/explorer-app/src/application.rs:2509-2626 | while the epoch stands the results are exactly those: rejections, then row k for dispatched request k, then incomplete-batch errors; otherwise some are left out, order kept; each is published behind a load that found the epoch current, each row behind its own |
| CodeLinesBatch.EmitRows | crates/explorer-app/src/application.rs:2564-2617 | rows are paired with dispatched requests in order across groups |
| CodeLinesWorker.ProcessRequests | crates/explorer-app/src/application.rs:2302-2421 | at most one result per request always, exactly one while the epoch stands, each justified by cache, read or provider; every batch at most 128 items and within the byte limit unless single; no batch closed before the next input exceeded a limit; every result published behind a load that found the epoch current |
| LockOwners.Compose | crates/explorer-app/src/application.rs:3006-3073 | the merge with its branch order over cancelled, timed out, failed and unavailable sources |
| LockOwners.MergeIsOrderIndependent | crates/explorer-app/src/application.rs:3006-3073 | with identities unique inside each source, permuting either list changes nothing |
| LockOwners.MergeIsSortedUnion | crates/explorer-app/src/application.rs:3023-3059 | the result is the strictly sorted union by (process id, creation time), the restart-manager record wins, truncation keeps exactly the least |
| LockOwners.WhatPrevails | crates/explorer-app/src/application.rs:3010-3073 | a cancel prevails over a deadline, that over owners, those over a failure, that over unavailability, the restart manager's first; Empty if and only if both found nobody |
| VirtualGenerations.VirtualContainers.Navigate | crates/explorer-app/src/brokered_service.rs:1245-1288 | reads the container, then under another lock the remaps, and serves what the two states say together |
| VirtualGenerations.VirtualContainers.WalkRemaps | crates/explorer-app/src/brokered_service.rs:1257-1268 | the remap walk ends within table size + 1 looks with what the walk function says |
| VirtualGenerations.VirtualContainers.WriteRemap | crates/explorer-app/src/brokered_service.rs:1498-1501 | replaces all remaps of the container by one |
| VirtualGenerations.VirtualContainers.Open | crates/explorer-app/src/brokered_service.rs:1238-1240 | enters the container at the generation it was opened at |
| VirtualGenerations.VirtualContainers.RecordUndo | crates/explorer-app/src/brokered_service.rs:1502-1507 | a commit keeps its backup for undo, in place of the container's earlier one |
| VirtualGenerations.VirtualContainers.ForgetUndo | crates/explorer-app/src/brokered_service.rs:1972-1974 | an undo uses up the backup |
| VirtualGenerations.VirtualContainers.WriteGeneration | crates/explorer-app/src/brokered_service.rs:1509-1512 | advances the container only if it is still open |
| VirtualGenerations.WalkIsOneBridge | crates/explorer-app/src/brokered_service.rs:1257-1268 | with one remap per container the walk succeeds exactly on the current generation or over one bridge |
| VirtualGenerations.RunKeepsBridges | crates/explorer-app/src/brokered_service.rs:1496-1521 | in every interleaving the table holds exactly the latest bridge of each container |
| VirtualGenerations.ServedIffCurrentOrBridged | crates/explorer-app/src/brokered_service.rs:1245-1288 | whatever happens between the two lookups, a location is served if and only if its generation was current at the first, or by the second the latest commit or undo had replaced it by that current one; it is rebuilt at the generation current at the first |
| VirtualGenerations.ServedAtOnceIsCurrent | crates/explorer-app/src/brokered_service.rs:1245-1288 | when nothing happens in between, exactly the current and the latest bridged generation are served, at the current one |
| VirtualGenerations.TornLookupServesReplaced | crates/explorer-app/src/brokered_service.rs:1245-1268 | a run in which the container is opened anew between the lookups and a replaced generation is served |
| VirtualGenerations.BridgeOutlivesCommit | crates/explorer-app/src/brokered_service.rs:1966-1982 | the bridge is not consumed |
| VirtualGenerations.CommitThenUndo | crates/explorer-app/src/brokered_service.rs:1497-1516 | from every reachable state a commit serves exactly the new and the old generation and can be undone once; the undo serves exactly its own and the committed one; other containers are untouched |
| EvidenceLedger.AppendLocalResult | scripts/append_local_evidence_result.py:28-74 | refuses a failing or foreign result; else appends one record with both back-links, keeping both chains |
| EvidenceLedger.AppendKeepsChains | scripts/append_local_evidence_result.py:37-45 | the two back-links keep the index chain and the per-task chain |
| EvidenceLedger.SharedEventSharesPrefix | scripts/evidence_index_validator.py:250-253 | index-chained ledgers sharing an event are equal up to it, unless two of their records have the same hash |
| EvidenceLedger.FinalHashDeterminesLedger | scripts/evidence_index_validator.py:250-253 | the final hash determines the whole ledger, unless two records have the same hash |
| EvidenceLedger.RecordsAreDistinct | scripts/evidence_index_validator.py:250-253 | no record occurs twice in an index-chained ledger whose records do not collide |
| EvidenceGraph.TransitiveDependents | scripts/evidence_index_validator.py:555-568 | terminates on any graph with exactly the tasks reachable by one or more reverse edges |
| EvidenceGraph.DependencyClosure | scripts/evidence_index_validator.py:613-625 | terminates on any graph with exactly what the selection needs, the least set closed under registered dependencies |
| EvidenceGraph.DependentsAndClosureAreDual | scripts/evidence_index_validator.py:555-625 | for distinct tasks, t is a dependent of s if and only if s is in the closure of {t} |
| EvidenceGraph.DualReachability | scripts/evidence_index_validator.py:555-625 | depending is reaching for distinct tasks, and depending on oneself is a cycle |
| EvidenceReplacement.LatestByTask | scripts/evidence_index_validator.py:503-507 | the last record of every task |
| EvidenceReplacement.AuthorizedTerminalIssue | scripts/evidence_index_validator.py:510-523 | no issue if and only if non-mock and passed, or not applicable with the policy's own approval of a non-mandatory task |
| EvidenceReplacement.ReplacementCycle | scripts/evidence_index_validator.py:297-305 | terminates, and reports a cycle if and only if the replacements never end |
| EvidenceReplacement.ResolvedReplacementChain | scripts/evidence_index_validator.py:526-552 | a duplicate-free chain of registered replacements, at most one longer than the policy; succeeds if and only if some chain ends in an authorized record; Cycle if and only if the edges never end |
| EvidenceReplacement.ResolvedChainIsUnique | scripts/evidence_index_validator.py:526-552 | a source has one resolving chain at most |
| EvidenceReplacement.CycleAgreement | scripts/evidence_index_validator.py:292-305 | the chain meets a cycle if and only if the cycle rule does and every replacement on the way is registered |
| EvidenceReplacement.CycleChecksAgree | scripts/evidence_index_validator.py:526-552 | with all replacements registered both walks agree, source by source |
| EvidenceRules.DuplicateEvents | scripts/evidence_index_validator.py:238-246 | reports exactly the repetitions of an event id |
| EvidenceRules.TaskLinks | scripts/evidence_index_validator.py:253-264 | grouping by task and walking each group reports exactly the broken per-task links |
| EvidenceRules.SharedSubchecks | scripts/evidence_index_validator.py:265-275 | reports exactly the terminal records under a key first closed by another task |
| EvidenceRules.RecordRules | scripts/evidence_index_validator.py:277-290 | reports exactly the records whose own status is unfounded |
| EvidenceGuarantees.StatusDemands | scripts/evidence_index_validator.py:277-290 | what passed, not applicable and superseded demand of a record, in its own fields |
| EvidenceGuarantees.SubcheckObjection | scripts/evidence_index_validator.py:265-275 | a terminal record is objected to if and only if another task was the first to close something under its key |
| EvidenceGuarantees.TaskNumbers | scripts/evidence_index_validator.py:29 | a task id is exactly three numbers joined by dots |
| EvidenceRules.ReplacementCycleIssues | scripts/evidence_index_validator.py:292-305 | reports exactly the latest superseded records from which replacements never end |
| EvidenceRules.CrossRecordIssues | scripts/evidence_index_validator.py:237-306 | reports every violation of every rule on its line and nothing else; silent if and only if the ledger is sound |
| EvidenceRules.AppendKeepsSound | scripts/append_local_evidence_result.py:37-73 | the append keeps a sound ledger sound if and only if the event id is new and the sub-check key is free |
| EvidenceGuarantees.LocalResultCloses | scripts/append_local_evidence_result.py:40-70 | an appended result is real evidence for its task, and claims what the policy says if and only if the task is a mandatory release-blocking P0 with this gate and these dependencies |
| EvidenceSupersession.DependentIssues | scripts/evidence_index_validator.py:593-609 | what one dependent leaves unmet: a stale mark after the supersession, then a revalidation of it against a successor |
| EvidenceSupersession.SupersessionIssues | scripts/evidence_index_validator.py:571-610 | reports exactly what every supersession leaves unmet; silent if and only if all are settled |
| EvidenceClosure.CompletionIssues | scripts/evidence_index_validator.py:309-337 | reports exactly the reasons latest records in scope do not complete their tasks; silent if and only if all do |
| EvidenceClosure.ScopeIssues | scripts/evidence_index_validator.py:654-660 | names exactly the tasks of the scope missing from policy, plan or ledger |
| EvidenceClosure.ClosureIssues | scripts/evidence_index_validator.py:628-687 | over the dependency closure of the selection, the gate raises exactly the objections there is reason for, and is silent if and only if all it demands holds |
| EvidenceClosure.ClosureIsSound | scripts/evidence_index_validator.py:628-677 | after a silent gate every needed task is closed by a non-mock passed or approved record, its own or its chain's last |
| EvidenceGuarantees.ClosedByEvidence | scripts/evidence_index_validator.py:510-552 | after a silent gate every needed task leads, replacement by replacement, to a last record that is real: no mock, and passed, or waived by the approved decision of a non-mandatory task |
| EvidenceGuarantees.FinalGateWaits | scripts/evidence_index_validator.py:659-663 | after a silent gate with 6.4.7 in scope, every other known task numbered 6. is a dependency of it, in scope and really closed |
| EvidenceGuarantees.UnlistedTaskIsObjectedTo | scripts/evidence_index_validator.py:659-663 | if one such task is missing from its dependencies the gate objects |
| EvidenceGuarantees.SupersessionIsFinal | scripts/evidence_index_validator.py:571-592 | a settled superseded task has no later record and leads to real evidence |
| EvidenceClosure.DependentsWereRevalidated | scripts/evidence_index_validator.py:589-609 | every transitive dependent was marked stale after the supersession; a finished one was recorded after that mark, names it, and names a successor |
| EvidenceClosure.AtMostOneSupersededDependency | scripts/evidence_index_validator.py:605-609 | unless two records of the ledger have the same hash, a finished task has at most one superseded task among its transitive dependencies |
| EvidenceClosure.SupersessionCanBeSettled | scripts/evidence_index_validator.py:571-610 | the demands are not vacuous: for any hash there is a ledger in which a dependent of a superseded task is finished again and nothing is owed |
| EvidenceClosure.SupersededTaskIsOnNoCycle | scripts/evidence_index_validator.py:583-601 | a settled superseded task depends on itself through no chain of dependencies |
| EvidenceClosure.LocalResultNeverRevalidates | scripts/append_local_evidence_result.py:40-72 | a result appended by the script unsettles every supersession that touches its task |
| EvidenceClosure.LocalResultKeepsSettledIff | scripts/append_local_evidence_result.py:40-72 | the script keeps supersessions settled if and only if its task is neither superseded nor dependent on a superseded one |

## Left out

- The persistent JSON layer of the column cache, and path canonicalisation: disk I/O, and it ignores directory epochs; a lookup takes its answer as a parameter, and the freshness statements are about the in-memory layer.
- SizeMapRequests.BuildRequest: node coordinates and the text of names are data; the bit flip of a colliding Other id and the text of its name are parameters of the host.
- FolderSizeGuarantees.AnsweredExactlyOnce: says nothing about progress; fairness of the scheduler and the time the folder service takes are not modelled.
- FolderSizeRetries.RetryBudget: counts requeues of a folder's identity; where two requests of one identity follow each other, the count begins with the later submission.
- The text of error messages: whether a service error is retryable is a free choice of the step that delivers it, so every statement holds for every classification; diagnostics, telemetry records and the backend status value are not modelled.
- The result channels' capacity: a send that blocks is a step that has not happened yet.
- RenderKeys.ScopedInjective: the host scope enters the key as a hash value; two scopes with the same 64-bit hash are not told apart, in the model as in the code.
- Decoding of text: strings are their UTF-8 bytes, and folded names arrive as data, because case folding belongs to the platform.
- The order of issues in a report, and the texts they carry: the validator's passes are compared by line and rule.
- JSON shape validation, artifact and local-result checks, tasks.md parsing and command-line handling of the Python scripts: records and policies are assumed well shaped, as those checks leave them; a policy approval is present only when approved.
- EvidenceClosure.ClosureIssues: signature verification of retained bundles is a predicate on records.
- CodeLinesWorker.ProcessRequests: the receiver stays connected; a lost receiver ends the worker in the code.
- Bodies of plugins, providers, `query_folders_batch`, archive readers and `FolderSizeServiceV1`: free choices or parameters.
- GPUI windows, menus, previews, icons, Win32 hand-off, credentials and bookmarks: composition and system calls.
- Lock poisoning: a lock that cannot be taken is not modelled.
