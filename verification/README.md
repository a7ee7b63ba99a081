# Anda Brain Worker, modelled in Dafny

This project models the memory service in `anda-brain-worker/src` of the Anda Brain repository and proves properties of
it. `dafny verify dfyconfig.toml` checks the whole project.

## What is modelled

**Managed memory changes** (`Nexus`, `Closure`, `Journal`, `ChangeState`, `ChangeRuns`, `Product`, `Brain`,
`Interruptions`). A change is prepared, committed behind a fence, applied to the graph request by request, verified and
confirmed; a deletion first scrubs the journal of what it erased. `MemoryProduct` is the Durable Object's part with its
stored fields; each storage write may happen, throw, or be the last thing the isolate does, as its `weather` says. The
native engine is a graph of elements with versions, lifecycle states and references, whose mutations are idempotent under
a key. Every method keeps a ghost history of durable states; `ChangeState.Next` is the step relation between them,
`ChangeRuns` proves what holds over every run, and `Interruptions` what particular interrupted calls leave.

**Attention** (`AttentionStream`, `Attention`, `AttentionCursor`). Pages over an append-only log grouped by commit, against
the stream they should deliver, and the three forms of the cursor.

**Maintenance** (`CorrectionLedger`, `RunLease`, `Rotation`, `MaintenanceRuns`, `Maintenance`). The scan for superseded
Assertions with its durable cursor and page in hand, the single-flight lease behind the fence, and the rotating snapshot.
Every operation may be cut after any of its writes, and `MaintenanceRuns` interleaves them all.

**Intake and briefing** (`Receipts`, `MemoryLedger`, `Json`, `Briefing`, `BriefingSize`, `Delivery`). Receipts and the keys
bound to them, the barrier a recall waits at, and the trimming of an answer to its budget, on the serialized size in bytes.

**Bounded text and model runs** (`Utf8`, `Paging`, `LineMarks`, `Headings`, `Reference`, `BoundedJson`, `ModelRun`).

**Timestamps** (`Calendar`, `Timestamp`). Canonical instants, and what the due-date query makes of them.

## Where the code does not do what it says

- A commit stores the excluded source keys before its fence. Cut between the two, it leaves the epoch as it was, and a pass
  admitted earlier may still write with an excluded source: `ChangeRuns.SuppressedSourceWrites` says exactly when, and
  `Interruptions.CutCommit` does it with any commit.
- An administrative erasure knows what to scrub only from the purges of the same call. Cut between a purge and the scrub
  marker, it loses these ids, and calling it again scrubs nothing: `Interruptions.EraseAndRecover` says exactly when the
  journal ends up clean, `Interruptions.CutErasureLeavesContent` shows one that does not.
- A commit of more than 200 raising Activities loses what only the excess raises: `Attention.EverythingDelivered`.
- A capture whose feedback reference is unknown deletes its receipt even when the receipt is already final, so a key can
  be bound twice: `Receipts.BindingHoldsExactly` says exactly when a binding holds. `MemoryLedger.RejectedCapture` is a
  capture that comes after its receipt was given up as abandoned.
- The due-date query compares text, so a Commitment is raised on time exactly if the text of its due time is not after the
  canonical text of the same instant: `Timestamp.DueExactly`. A due time with an offset ahead of UTC is raised late by
  that offset (`Timestamp.OffsetDueIsRaised`), one in UTC without a fraction by one second (`Timestamp.SecondsDueIsRaised`).
- `boundedJson` exceeds a limit below 18 characters: `BoundedJson.Bound`.

## Assumptions

- Writes of administrators and agents happen only while no change is pending. They never bring a purged element back, nor
  add a reference to one. They do not touch the table of idempotency keys.
- Storage and native writes become durable one by one, in the order they are made. Every result over all runs holds as well
  if the storage groups some of them; the cut runs of `Interruptions` need a cut where they make it.
- One purge of an administrative erasure purges what it names, and like any other write spares what was purged before.
- Digests are injective, so a value stands for its digest; random ids are fresh. Ids and journal keys are numbers in
  listing order. Strings are sequences of Unicode scalar values, and compare as the host compares them.
- The engine answers a correction query with the first 20 rows the position has not passed, a row superseded again moves
  to the later commit, and a commit adds rows only at its own sequence.
- The log of raising Activities grows by whole commits. The inputs of an Activity are those its read returns, at most 128.
- The host's date parser reads the RFC 3339 forms as `Timestamp.Instant` does, with `t`, `z`, a blank or a longer fraction
  like the plain form. Which offsets it reads, and which other forms, are parameters, and the results hold for any choice.
  Instants count from the year 0000, a constant before the host's epoch.
- Sums in `boundedJson` are exact: the products with 0.4 round to the integers the model uses.
- A token count the model reports is a whole number. What a model answers is arbitrary.
- Time does not go back, and epochs only grow, as `ChangeRuns.EpochGrows` proves for the fence.

## Model

| member | source | states |
|---|---|---|
| `Closure.Search` | anda-brain-worker/src/product.ts:315-331 | The worklist returns a set exactly when at most 128 elements are reached, through whatever refers to a live element and from a claim to its tuple and its sources, and each of them is purged already or neither a Concept, nor under legal hold, nor a source of unknown identity; the set is exactly the live elements reached. |
| `Closure.ClosedHoldsPath` | anda-brain-worker/src/product.ts:316-330 | A set that holds the root and is closed under the step holds the end of every path from it. |
| `Journal.PageVisited` | anda-brain-worker/src/product.ts:482-490 | One more 50-entry page: what was visited stays in key order without repeats, and is every key up to the new cursor, or every key once a short page ends the listing. |
| `Product.ErasurePreviewTargets` | anda-brain-worker/src/product.ts:328-335 | The preview of an erasure lists exactly the closure, in order of id, each target as it stands. |
| `Product.MemoryProduct.PreviewChange` | anda-brain-worker/src/product.ts:302-336 | A preview is given exactly to a caller who reads the claim at the named revision with every source there and known: for a revision, by the claim's own current actor, of a value that is not blank, takes at most 8192 bytes and is new; for an erasure, where the closure allows it. It shows the claim as it stands, and excludes exactly the identities bound to the sources the claim cites and, for an erasure, to the Evidence among its targets. |
| `Product.MemoryProduct.Check` | anda-brain-worker/src/product.ts:136-140 | A pass is let through exactly when no change and no scrub is pending and its epoch is the current one. |
| `Product.MemoryProduct.Begin` | anda-brain-worker/src/product.ts:141-156 | A pass is admitted exactly while the fence is open and none of its sources is excluded, at the current epoch. |
| `Product.MemoryProduct.Invalidate` | anda-brain-worker/src/product.ts:172-179 | One more epoch, only while the fence is open; a storage failure leaves everything as it was. |
| `Product.MemoryProduct.Prepare` | anda-brain-worker/src/product.ts:342-369 | A new operation id stores a proposal exactly when the fence is open, the request is supported, its preview is allowed, a revision's object is a Concept, a correction has a start, the native dry run passes and the write succeeds; the proposal is what the graph says. A known id replays the same input, refuses another, and may only expire. |
| `Product.MemoryProduct.DryRun` | anda-brain-worker/src/product.ts:520-546 | The statements of a change can be made exactly when a revision's object is a Concept, a correction has a start, and the dry run passes. |
| `Product.MemoryProduct.Commit` | anda-brain-worker/src/product.ts:391-418 | Under any storage failure: a commit that returns left its change confirmed and verified with the fence open, or still fenced and resumable, and the entry is the one reviewed: same input, digest, targets, claim and sources. One that does not reach its fence leaves excluded keys of its change and possibly its own entry expired, and nothing else. The fence is stored only for a preview that still holds, and undisturbed it always is; once it is, every identity bound to a cited source or to an erased Evidence is excluded. |
| `Product.MemoryProduct.Recheck` | anda-brain-worker/src/product.ts:402-405 | The second look passes exactly when a preview of the current graph is allowed and is the one that was reviewed. |
| `Product.MemoryProduct.Fence` | anda-brain-worker/src/product.ts:400-413 | The source keys are stored one by one and then the fence; the fence is up only when every key is stored, with one more epoch. |
| `Product.MemoryProduct.ApplyRequests` | anda-brain-worker/src/product.ts:432-449 | The request loop, interrupted anywhere, leaves a journal entry and a graph from which the loop can go on; when it ends, every target is in its required state. |
| `Product.MemoryProduct.Verify` | anda-brain-worker/src/product.ts:450-460 | The last check passes exactly when the claim, its replacement and every target are in the required state. |
| `Product.MemoryProduct.Finish` | anda-brain-worker/src/product.ts:461-471 | Confirmed is stored before the fence opens. A deletion is confirmed only when every other journal entry was treated for its targets and its own entry holds no content, no request and no value. |
| `Product.MemoryProduct.Apply` | anda-brain-worker/src/product.ts:428-480 | A thrown error leaves the change reconciling, fenced and marked with the error; a caller without the grant changes nothing but that entry; without failures and with grants the change ends confirmed, verified, a deletion with its copies in the journal gone, and nothing is pending. |
| `Product.MemoryProduct.Recover` | anda-brain-worker/src/product.ts:419-427 | Recovery finishes an interrupted scrub, so that every entry is treated for the ids of its marker, and then an interrupted change. Undisturbed it leaves the fence open and the change it found confirmed and verified; with nothing interrupted it changes nothing. |
| `Product.MemoryProduct.Discard` | anda-brain-worker/src/product.ts:384-390 | Only a proposal that is not pending can be discarded, and its content goes with it. |
| `Product.ExpiredExactly` | anda-brain-worker/src/product.ts:491-497 | A proposal whose time is up is discarded with its content unless it is the pending change, and nothing else is. |
| `Product.ScrubbedExactly` | anda-brain-worker/src/product.ts:505-515 | The scrub changes exactly the entries whose claim, tuple, source, replacement or revision input was erased: a proposal is discarded, and an entry keeps its requests and new value only if it is confirmed and only its old claim was touched. |
| `Product.MemoryProduct.ScrubEntry` | anda-brain-worker/src/product.ts:505-515 | One journal entry loses its record text, and its requests and new value too when it is unconfirmed or its replacement was erased, exactly when it touches an erased id. |
| `Product.MemoryProduct.ScrubAll` | anda-brain-worker/src/product.ts:482-515 | The pages visit every key of the journal once, in order, and treat every entry but the excepted one. |
| `Product.MemoryProduct.ScrubChanges` | anda-brain-worker/src/product.ts:498-518 | When the marker is cleared every entry but the excepted one is treated for the union of the given and the marked ids; interrupted, the marker still holds that union. |
| `Product.MemoryProduct.EraseOpen` | anda-brain-worker/src/forget.ts:28-46 | The entities are erased one by one and then the journal is scrubbed of exactly the ids these erasures purged. An unfinished call has stored the marker with exactly those ids, or has left the journal as it was. |
| `ChangeRuns.StepKeepsInv` | anda-brain-worker/src/product.ts:342-518 | Every durable write of every operation keeps the invariant that makes a fenced change resumable and what a confirmed deletion erased purged and unreferenced. |
| `ChangeRuns.StepKeepsSpotless` | anda-brain-worker/src/product.ts:461-518 | Every durable write keeps every other journal entry free of what a confirmed deletion erased, the deletion's own entry emptied, and the pending change away from what was erased. |
| `ChangeRuns.InvThroughout` | anda-brain-worker/src/product.ts:342-518 | Both invariants hold in every state of every run, whatever was interrupted. |
| `ChangeRuns.FencedNeverDiscarded` | anda-brain-worker/src/product.ts:384-418 | A change whose fence was stored is never discarded and keeps its targets, over every run. |
| `ChangeRuns.EntryStays` | anda-brain-worker/src/product.ts:384-518 | Over every run an entry stays the entry it was: its input, its digest, its targets, and the claim and sources it is about never change. |
| `ChangeRuns.MutatedAtMostOnce` | anda-brain-worker/src/product.ts:432-449 | Over a whole run the native mutation of each target takes effect at most once. |
| `ChangeRuns.PendingClearedOnlyWhenDone` | anda-brain-worker/src/product.ts:466-471 | The fence leaves a change in one way only: the receipt is stored confirmed and every target is in its required state. |
| `ChangeRuns.ClearedMeansAppliedOnce` | anda-brain-worker/src/product.ts:432-471 | When a revision or deletion is cleared, each of its mutations was applied exactly once in the run. |
| `ChangeRuns.ChangeSparesOthers` | anda-brain-worker/src/product.ts:428-449 | From its fence until it is cleared a change leaves every element outside its targets as it was, for a revision outside its claim, and of these changes only state, status and version; a suppression or deletion adds no element, a revision five new ones once it is applied. |
| `ChangeRuns.ClearedSparedOthers` | anda-brain-worker/src/product.ts:428-471 | Between fence and clearing, exactly so: everything else spared, and five new elements for a revision. |
| `ChangeRuns.DeletionLeavesNoReference` | anda-brain-worker/src/product.ts:302-336 | From the moment a deletion is cleared its targets stay purged and no live element refers to one, in every later state. |
| `ChangeRuns.ErasedContentIsGone` | anda-brain-worker/src/product.ts:496-518 | From the moment a deletion is cleared, in every later state its own entry is emptied and no other entry keeps the text of a claim that names an erased element. |
| `ChangeRuns.ConfirmedStays` | anda-brain-worker/src/product.ts:391-399 | A cleared change is never pending again. |
| `ChangeRuns.PassIsFenced` | anda-brain-worker/src/product.ts:136-179 | A pass that writes under its admitted epoch saw no fence and no invalidation since, and nothing was pending at any moment between. |
| `ChangeRuns.NoWriteAfterFence` | anda-brain-worker/src/product.ts:391-413 | A pass admitted before a fence or an invalidation never writes after it. |
| `ChangeRuns.SuppressedSourceWrites` | anda-brain-worker/src/product.ts:406-412 | A pass writes with an excluded source exactly when that exclusion was stored after its admission by a commit whose fence was not stored by then. |
| `Interruptions.CutBeforeFence` | anda-brain-worker/src/product.ts:406-412 | Any commit that nothing stands in the way of can be cut after its excluded keys are stored: nothing else has changed then. |
| `Interruptions.CutCommit` | anda-brain-worker/src/product.ts:406-412 | Whatever the change, the sources and the write: a pass admitted before such a cut writes afterwards, at its old epoch. |
| `Interruptions.CutCommitLetsExcludedSourceWrite` | anda-brain-worker/src/product.ts:406-412 | One memory with a claim and its source, on which a pass of the source that was just excluded writes. |
| `Brain.WriteIsUnfenced` | anda-brain-worker/src/brain.ts:197-209 | A write under an epoch belongs to passes that no fence came after. |
| `Brain.AndaBrain.OpenProcessing` | anda-brain-worker/src/brain.ts:189-196 | Recovery runs first, and a pass is opened only while nothing is pending; undisturbed, exactly when none of its sources is excluded. |
| `Brain.AndaBrain.ExecutePlan` | anda-brain-worker/src/brain.ts:378-387 | A plan or agent read runs only while nothing is pending, at its own epoch, with no fence since its admission; otherwise the graph is left to the recovery. |
| `Brain.AndaBrain.ProductCommit` | anda-brain-worker/src/brain.ts:236-239 | Recovery runs first; a commit that returns left its change settled, and the entry is the one that was stored before. Undisturbed, a change nothing stands in the way of is confirmed. |
| `Brain.AndaBrain.ForgetMemory` | anda-brain-worker/src/brain.ts:174-179 | Administrative erasure fences the passes in flight before it, and the journal holds no copy of what it purged after it; an unfinished call left the marker with all it purged, or the journal as it was. Undisturbed it erases all it can. |
| `Interruptions.EraseAndRecover` | anda-brain-worker/src/forget.ts:28-46 | Under any interruption, once the next call has recovered, the journal is free of what was purged exactly if the erasure finished, or its marker was stored, or the journal was free of it before. |
| `Interruptions.CutErasure` | anda-brain-worker/src/forget.ts:28-44 | An erasure cut before its marker and called again is reported done with the journal unchanged. |
| `Interruptions.CutErasureLeavesContent` | anda-brain-worker/src/forget.ts:28-44 | One memory on which the claim is purged, the erasure done, and the journal still shows the text of the claim. |
| `AttentionStream.SortLookup` | anda-brain-worker/src/attention.ts:101-103 | The sort by ref is stable: the first item of each ref stays the first. |
| `AttentionStream.AllRaisedAre` | anda-brain-worker/src/attention.ts:94-99 | A commit raises exactly the inputs of its Activities, each at the sequence of the commit. |
| `AttentionStream.CommitItemsAre` | anda-brain-worker/src/attention.ts:94-103 | One commit raises each ref once, in order of ref, and of equal refs the one read first. |
| `AttentionStream.ByCommitInOrder` | anda-brain-worker/src/attention.ts:89-111 | The stream is strictly ordered by `(raised_seq, ref)`. |
| `AttentionStream.AfterAgain` | anda-brain-worker/src/attention.ts:54-57 | Going on from a later position is going on within what the earlier one left. |
| `Attention.TakeCommit` | anda-brain-worker/src/attention.ts:102-110 | Of one commit, the items not repeated and not delivered yet, up to the page limit; stopping early means one more is left. |
| `Attention.RecallAttention` | anda-brain-worker/src/attention.ts:59-114 | A read is refused exactly for a limit outside 1 to 50; otherwise the page is the next items of the stream and its cursor leaves exactly the rest, complete only if nothing is left, incomplete only with a cursor strictly further on. |
| `Attention.WindowCovers` | anda-brain-worker/src/attention.ts:70-85 | The window of 200 rows with its last commit left to the next page covers whole commits, and is past its start whenever anything is left. |
| `Attention.DeliveredExactlyOnce` | anda-brain-worker/src/attention.ts:59-114 | For any limits and any commits appended between pages, the pages deliver a strictly ordered prefix of the stream, and after a complete page the whole stream. |
| `Attention.IncompletePageProgresses` | anda-brain-worker/src/attention.ts:109-114 | An incomplete page advances the cursor and leaves fewer items, or as many and fewer rows. |
| `Attention.FollowingEnds` | anda-brain-worker/src/attention.ts:109-114 | A host that keeps following the cursor over an unchanged log meets at most as many incomplete pages as there are items and rows. |
| `Attention.EverythingDelivered` | anda-brain-worker/src/attention.ts:79-85 | The pages deliver every raised item exactly when no commit raises, beyond its first 200 Activities, a ref the first 200 do not. |
| `Attention.BurstLosesAnItem` | anda-brain-worker/src/attention.ts:79-83 | With 201 Activities in one commit, each raising an item, one is never delivered. |
| `AttentionCursor.CursorRoundTrip` | anda-brain-worker/src/attention.ts:44-51 | A position survives its cursor exactly when its sequence has at most 15 digits and its ref is one non-empty line; any other cursor is refused. |
| `AttentionCursor.ParseExactly` | anda-brain-worker/src/attention.ts:39-51 | A cursor is read exactly in the forms of the start, a sequence of at most 15 digits, and such a sequence with a ref on one line; it denotes the number and the ref it spells. |
| `AttentionCursor.AcceptedIsCarried` | anda-brain-worker/src/attention.ts:39-51 | Every accepted cursor, older or padded forms included, denotes the position its canonical form denotes. |
| `CorrectionLedger.ScanCorrections` | anda-brain-worker/src/settle.ts:240-304 | A page accounts for the log: passing it passes only rows passed before or on the page, and a complete page leaves none; a refused query or unreadable row keeps the position. |
| `CorrectionLedger.WorkKeepsCovered` | anda-brain-worker/src/maintenance.ts:40-69 | Every durable write of save, acknowledgement and reset keeps every row up to the cursor acknowledged, and every row up to the end of the page in hand acknowledged or on it. |
| `CorrectionLedger.NoCorrectionSkipped` | anda-brain-worker/src/maintenance.ts:38-69 | In every run of scans, partial acknowledgements, resets, interruptions and new commits, each superseded row at or before the stored cursor was acknowledged, for that revision, and stays so. |
| `CorrectionLedger.BacklogExhausted` | anda-brain-worker/src/settle.ts:274-284 | Once a complete page is reviewed, every superseded row there is was acknowledged. |
| `CorrectionLedger.PageAdvances` | anda-brain-worker/src/settle.ts:275-284 | A reviewed page leaves strictly fewer rows, also within one transaction of several pages. |
| `Maintenance.MaintenanceWork.Begin` | anda-brain-worker/src/maintenance.ts:19-28 | A run is admitted exactly when none is active in this epoch and its expiry is within the next 300 seconds. |
| `Maintenance.MaintenanceWork.BeginRun` | anda-brain-worker/src/brain.ts:84-87 | A run is admitted exactly past the fence, when none is active at its epoch and the expiry is within 300 seconds. |
| `Maintenance.MaintenanceWork.Check` | anda-brain-worker/src/maintenance.ts:29-34 | A run passes exactly with the stored id, its own epoch and time left. |
| `Maintenance.MaintenanceWork.Release` | anda-brain-worker/src/maintenance.ts:35-37 | A run releases only what it holds itself. |
| `Maintenance.MaintenanceWork.Save` | anda-brain-worker/src/maintenance.ts:40-49 | A page is stored, or an empty one passed, with the state after each of its writes. |
| `Maintenance.MaintenanceWork.Acknowledge` | anda-brain-worker/src/maintenance.ts:50-69 | An id not on the page in hand is refused and changes nothing; the cursor moves only when every row of the page was named. |
| `Maintenance.MaintenanceWork.SettleMemory` | anda-brain-worker/src/brain.ts:491-504 | A maintenance cycle goes on with the page in hand, or scans from the cursor, only while the fence is open at its epoch and its run holds the lease there; what it stores is one step of the whole. |
| `Maintenance.MaintenanceWork.ExecutePlan` | anda-brain-worker/src/brain.ts:430-460 | Corrections are acknowledged only by a run that holds its lease, at the epoch of the open fence, when no command of its plan failed; undisturbed, the call passes exactly under these conditions with ids of the page in hand. |
| `Maintenance.MaintenanceWork.AcknowledgeDirectly` | anda-brain-worker/src/brain.ts:118-121 | The direct entry acknowledges at the epoch of the open fence, without a lease. |
| `RunLease.LostNeverPasses` | anda-brain-worker/src/maintenance.ts:19-37 | A run that once does not pass, because it expired, was released, was taken over or saw its epoch end, never passes again. |
| `RunLease.AdmissionEndsOthers` | anda-brain-worker/src/maintenance.ts:19-28 | No run is admitted while another passes, and an admission ends every run before it for good. |
| `RunLease.LeaseIsBounded` | anda-brain-worker/src/maintenance.ts:22-24 | A run stops passing at the latest 300 seconds after its admission. |
| `RunLease.PassesExactly` | anda-brain-worker/src/maintenance.ts:19-37 | An admitted run passes exactly until its epoch ends, its time is up or it releases its lease; nothing another run does ends it before. |
| `RunLease.ReleaseKeepsSuccessor` | anda-brain-worker/src/maintenance.ts:35-37 | A run that lost its lease cannot release its successor's. |
| `MaintenanceRuns.LostNeverActs` | anda-brain-worker/src/brain.ts:430-504 | In every interleaving of runs, pages, commits and interruptions, a run that was lost once acknowledges nothing and stores no page from then on. |
| `MaintenanceRuns.AdmissionEndsEarlierRuns` | anda-brain-worker/src/maintenance.ts:19-34 | Once a run is admitted, none admitted before acknowledges or stores anything. |
| `MaintenanceRuns.PassedWasReviewed` | anda-brain-worker/src/maintenance.ts:38-69 | Every correction the cursor has passed was named from the page in hand, by the plan of a run that held its lease at that moment or by the direct entry. |
| `Maintenance.MaintenanceWork.Snapshot` | anda-brain-worker/src/maintenance.ts:75-96 | Each group is offered the next candidates after its cursor, from the start again once none is left, and the cursor moves to the last one offered. |
| `Rotation.OfferedAfterWait` | anda-brain-worker/src/maintenance.ts:84-91 | Each candidate is offered after exactly its computed number of snapshots. |
| `Rotation.RotationIsFair` | anda-brain-worker/src/maintenance.ts:84-91 | From any cursor each of n unchanged candidates is offered within n/20, rounded up, plus one snapshots, and each snapshot offers at most 20. |
| `Receipts.TerminalIsFinal` | anda-brain-worker/src/memory-ledger.ts:256-264 | Until a rejected capture drops it, a receipt keeps its meaning, and its terminal progress, result and warnings are the first ones: a failed or abandoned receipt never becomes available. |
| `Receipts.BindingHoldsExactly` | anda-brain-worker/src/memory-ledger.ts:414-423 | A key stays bound to its record exactly as long as no capture with an unknown reference rejects it, in every interleaving. |
| `Receipts.SecondPassNeedsRejection` | anda-brain-worker/src/memory-ledger.ts:267-289 | A key starts a second pass only after such a rejection. |
| `MemoryLedger.RejectedCapture` | anda-brain-worker/src/memory-ledger.ts:414-423 | For any ledger and any two requests of one key: a feedback whose failure was reported as final is dropped by its late capture, and the key is bound to the other request. |
| `MemoryLedger.MemoryLedger.ReadProgress` | anda-brain-worker/src/memory-ledger.ts:245-254 | Progress is visible exactly in its own namespace; a pass silent for more than ten minutes fails now, for good, and nothing else changes. |
| `MemoryLedger.MemoryLedger.Settle` | anda-brain-worker/src/memory-ledger.ts:256-264 | The first terminal progress is kept with its result, and its warnings join those of the record; a later one changes nothing. |
| `MemoryLedger.MemoryLedger.CheckPredecessors` | anda-brain-worker/src/memory-ledger.ts:290-295 | Passes exactly when every predecessor is a receipt of the namespace that has neither failed nor been abandoned. |
| `MemoryLedger.MemoryLedger.Admit` | anda-brain-worker/src/memory-ledger.ts:267-338 | A bound key replays its record exactly for a request with the same scope and input, the same source unless it is a forget, and the same bytes if the source still resolves, and conflicts otherwise, never starting a pass; a fresh key is bound exactly when its source resolves, its target is there and its predecessors stand. |
| `MemoryLedger.AdmitTwice` | anda-brain-worker/src/memory-ledger.ts:278-289 | Two admissions of one key, told by the fields of the two requests: the second is done exactly for such a request, and replays. |
| `MemoryLedger.BindsStill` | anda-brain-worker/src/memory-ledger.ts:256-289 | A record goes on binding the request it was admitted for in every interleaving, as long as no capture rejects it. |
| `MemoryLedger.MemoryLedger.FinishFormation` | anda-brain-worker/src/memory-ledger.ts:349-402 | A pass that reports back becomes available exactly at the latest of its commits, its repair and its admission, or failed when its repair was refused; a settled receipt keeps its progress. |
| `MemoryLedger.MemoryLedger.FailFormation` | anda-brain-worker/src/memory-ledger.ts:406-408 | A failure is terminal unless the receipt was settled before. |
| `MemoryLedger.MemoryLedger.CaptureEvidence` | anda-brain-worker/src/memory-ledger.ts:414-449 | An unknown reference drops the receipt whatever its state; otherwise the receipt becomes available exactly at the latest of its messages and its admission, once every message was written. |
| `MemoryLedger.TraceOf` | anda-brain-worker/src/memory.ts:91-108 | The trace names the last commit and exactly what the committed results created. |
| `MemoryLedger.MemoryLedger.Barrier` | anda-brain-worker/src/memory-ledger.ts:662-664 | Answers exactly when every receipt waited for is visible in the namespace, each with its current progress. |
| `Json.FieldChanged` | anda-brain-worker/src/memory-wire.ts:226-228 | Changing one value of a serialized object changes its size by what the two values differ. |
| `Json.SizeIsBytes` | anda-brain-worker/src/memory-wire.ts:226-228 | The computed size of a value is the number of UTF-8 bytes of the compact text the host writes for it. |
| `BriefingSize.ItemFloor` | anda-brain-worker/src/memory-ledger.ts:739-742 | A serialized item takes at least 154 bytes. |
| `BriefingSize.CoverageShrinksByFour` | anda-brain-worker/src/memory-wire.ts:267-270 | One channel becoming complete, with all that follows from it, takes at most four bytes off the serialized coverage. |
| `BriefingSize.SizeGrows` | anda-brain-worker/src/memory-ledger.ts:769-787 | With at most 128 candidates the serialized briefing grows strictly with every optional item kept. |
| `Delivery.Deliver` | anda-brain-worker/src/memory-ledger.ts:753-809 | Delivery fails exactly when the required items alone do not fit the budget, and otherwise keeps them all and the longest fitting run of optional ones. |
| `Delivery.FitsIsBytes` | anda-brain-worker/src/memory-wire.ts:226-228 | A briefing fits exactly when the bytes of its text are at most the budget. |
| `Delivery.Bisect` | anda-brain-worker/src/memory-ledger.ts:795-806 | The bisection ends at the largest number of candidates that fits. |
| `Delivery.CompleteExactly` | anda-brain-worker/src/memory-ledger.ts:733-744 | Coverage is complete exactly when every channel was read whole, the budget left nothing out, and every receipt waited for is available at the snapshot. |
| `Delivery.EligibleExactly` | anda-brain-worker/src/memory-ledger.ts:739-742 | An item may be acted on exactly when it is an accepted fact or constraint of such a briefing with no unverified precondition. |
| `Delivery.CompleteSeesThePass` | anda-brain-worker/src/memory-ledger.ts:398-402 | Every commit of a pass that reported back is at or before the snapshot of a complete briefing that waited for it. |
| `Delivery.CheckAsOf` | anda-brain-worker/src/memory.ts:123-127 | A fixed snapshot is refused exactly when a receipt waited for is newer. |
| `Delivery.Wait` | anda-brain-worker/src/memory.ts:121-127 | The first call of a recall is refused exactly for a receipt that is not visible in the namespace or newer than a fixed snapshot, and otherwise answers the current progress of every receipt it waits for. |
| `Delivery.Answer` | anda-brain-worker/src/memory.ts:166-182 | The last call refuses exactly when the required items do not fit, and otherwise answers with the longest fitting run. In terms of the receipts waited for and the snapshot: the answer is complete exactly if every channel was read whole, nothing was left out and each receipt is available there, and its pending receipts are exactly the others; it succeeds exactly if complete, and is pending exactly if a receipt is not available. An item may be acted on exactly if it is an accepted fact or constraint of a complete answer without unverified preconditions. |
| `Delivery.SucceededIsAvailable` | anda-brain-worker/src/memory.ts:121-182 | Whatever the ledger does between the two calls, a receipt a complete answer waited for is still the one waited for, and available at the answer's snapshot, exactly if no capture rejected it in between. |
| `Utf8.DecodeEncode` | anda-brain-worker/src/kip-reference.ts:35-36 | The fatal decoder never fails on encoded text and gives the text back. |
| `Utf8.DecodeExactly` | anda-brain-worker/src/kip-reference.ts:35-36 | The fatal decoder accepts exactly what the encoder writes. |
| `Utf8.BoundaryExactly` | anda-brain-worker/src/kip-reference.ts:40-43 | A byte position is a character boundary exactly when no continuation byte stands there. |
| `Paging.ReadPage` | anda-brain-worker/src/kip-reference.ts:38-45 | A page is refused exactly for an offset that is not a boundary; otherwise it holds whole characters, at most 8192 bytes, up to the last boundary in reach. |
| `Paging.ReadWhole` | anda-brain-worker/src/kip-reference.ts:38-45 | Following next_offset from 0 ends and joins to exactly the text. |
| `LineMarks.LinesPartition` | anda-brain-worker/src/kip-reference.ts:50-63 | The lines partition the text and stand where the scan adds their offsets up to. |
| `LineMarks.MarkerExactly` | anda-brain-worker/src/kip-reference.ts:51-52 | A fence marker is the whole run of at least three backticks or tildes a trimmed line starts with. |
| `LineMarks.HeadingExactly` | anda-brain-worker/src/kip-reference.ts:58-60 | A heading line is one to six `#`, a blank and some text on one line; its title is that text, trimmed. |
| `LineMarks.LineExactly` | anda-brain-worker/src/kip-reference.ts:50-60 | A line is told by its trimmed text: its marker, whether only blanks follow it, and its heading. |
| `Headings.Scan` | anda-brain-worker/src/kip-reference.ts:47-64 | The scan finds exactly the headings outside every fence. |
| `Headings.InsideExactly` | anda-brain-worker/src/kip-reference.ts:53-57 | A line is inside a fence exactly when an earlier line opened one outside any other and none since closed it. |
| `Headings.HeadingsExactly` | anda-brain-worker/src/kip-reference.ts:58-60 | The headings are exactly the heading lines, each at its own offset. |
| `Headings.SectionEndsAt` | anda-brain-worker/src/kip-reference.ts:94-96 | A section ends at the first later heading of its rank or higher, or at the end. |
| `Headings.SectionsAreLaminar` | anda-brain-worker/src/kip-reference.ts:94-96 | Any two sections are nested or disjoint. |
| `Headings.ReadSection` | anda-brain-worker/src/kip-reference.ts:91-97 | A section is read exactly when one and only one heading has its title, and it is the only text that is the section. |
| `Reference.ReadReference` | anda-brain-worker/src/kip-reference.ts:66-100 | A request is answered exactly when it selects a text of the compiled-in documents and the offset is a character boundary of it, with the page at that offset. |
| `BoundedJson.Shrink` | anda-brain-worker/src/prompts.ts:130-144 | For any escaping the loop ends, with the first cut that fits, and with none only when not even an empty one fits. The cuts start at two fifths and three fifths of what 160 characters less than the limit hold; each next one gives back two fifths of the excess at the head, rounded up, and the rest at the tail. |
| `BoundedJson.RoomsExactly` | anda-brain-worker/src/prompts.ts:127-128 | The first cut is the code's, computed with real numbers. |
| `BoundedJson.Bound` | anda-brain-worker/src/prompts.ts:119-145 | The result is the value itself or, of the cuts tried, the first that fits, its prefix called head and its suffix tail, or the bare mark; it is within the limit exactly when the value is, or the limit is at least 18. |
| `ModelRun.AddIsAssociative` | anda-brain-worker/src/ai.ts:397-405 | Adding usage is associative on consistent usage, and the zero changes nothing it says. |
| `ModelRun.CallAccounted` | anda-brain-worker/src/ai.ts:397-405 | Adding one call keeps the account: a total is missing exactly when some call lacked that count, and what is known is the sum of what was reported. |
| `ModelRun.Judge` | anda-brain-worker/src/ai.ts:195-205 | A round goes on exactly after a lookup of one to four pages that carries nothing but placeholders, with a round to go and pages left; it returns exactly a final response, and runs out of budget exactly on a request for more. |
| `ModelRun.RunStructured` | anda-brain-worker/src/ai.ts:162-223 | On every path the usage counts each call once, at most 4 calls and 8 pages occur, what is returned is the last response and asks for no reference, and the run ends only on a turn that could not go on. |
| `ModelRun.PlanFrom` | anda-brain-worker/src/ai.ts:153-160 | A plan is exactly a valid final response; one that is not valid still reports the cost of the whole run. |
| `Calendar.CivilKeepsInstant` | anda-brain-worker/src/validation.ts:367-373 | The fields of an instant give the instant back. |
| `Calendar.YearsInClosedForm` | anda-brain-worker/src/validation.ts:369 | Of every 400 years 97 are leap years, by the rule of the Gregorian calendar. |
| `Calendar.MonthExactly` | anda-brain-worker/src/validation.ts:370 | The months have their lengths, February one day more in a leap year. |
| `Calendar.InstantOrder` | anda-brain-worker/src/validation.ts:367-373 | Instants compare as date and then time of day compare. |
| `Timestamp.InstantExactly` | anda-brain-worker/src/validation.ts:359-386 | A text is read exactly if, trimmed, it is a date of the calendar, a time of the day, at most three digits of fraction other than zero, and `Z` or an offset the host reads; it denotes these fields less what the zone is ahead. |
| `Timestamp.OffsetInstant` | anda-brain-worker/src/validation.ts:361-387 | A local time with the offset `+hh:mm` denotes its fields less these hours and minutes, one with `-hh:mm` its fields plus them. |
| `Timestamp.YearsExactly` | anda-brain-worker/src/validation.ts:386-387 | What is spelled in 24 characters are exactly the 3,652,425 days of the years 0000 to 9999. |
| `Timestamp.IsoDenotes` | anda-brain-worker/src/validation.ts:385-387 | Every instant of the years 0000 to 9999 has a canonical spelling, which denotes it and is its own canonical form. |
| `Timestamp.CanonicalIsIdempotent` | anda-brain-worker/src/validation.ts:359-388 | A canonical timestamp has 24 characters, denotes the instant of its input, and is its own canonical form. |
| `Timestamp.CanonicalOrder` | anda-brain-worker/src/validation.ts:359-388 | Two accepted texts in any offsets have one canonical form exactly when they denote one millisecond, and their canonical forms compare as text as their instants do. |
| `Timestamp.ObservationIsCanonical` | anda-brain-worker/src/validation.ts:390-393 | An observation time is always canonical, from the caller or from the clock. |
| `Timestamp.CanonicalDueIsRaised` | anda-brain-worker/src/settle.ts:82-103 | A Commitment whose due time is canonical is raised exactly when it is due. |
| `Timestamp.DueExactly` | anda-brain-worker/src/settle.ts:82-103 | Any due time the host reads, in whatever form, is raised at every moment from its instant on and never before exactly if its text is not after the canonical text of its instant. |
| `Timestamp.StartOfIsoIsRaised` | anda-brain-worker/src/settle.ts:82-103 | A due time that is the beginning of its canonical text, such as a bare date, is raised on time. |
| `Timestamp.OffsetDueIsRaised` | anda-brain-worker/src/settle.ts:82-103 | One whose due time is spelled with an offset of some hours and minutes ahead of UTC is raised late by exactly these, one behind UTC on time. |
| `Timestamp.SecondsDueIsRaised` | anda-brain-worker/src/settle.ts:82-103 | One in UTC spelled without a fraction is raised exactly from one second after its instant on. |

## Left out

- `MemoryLedger.forget` as a whole: its direct exclusions do not advance the epoch, so fence safety is stated for changes made through `MemoryProduct.commit`.
- Watches, record listing and the correction source of `product.ts`: one-step operations beside the protocol.
- Authorization in detail: a caller has the grants a call needs or not, and the stored caller of a change is a parameter.
- The provenance of captured evidence in `begin` and `capture`: which source keys an Evidence has is a given table.
- `clearMaintenanceContext` inside a commit: it is a step of its own in `CorrectionLedger`, not a field of `MemoryProduct`.
- The refusal of an unknown stored control version: a one-branch fact.
- The dependents of a superseded Assertion: they are shown with it and do not move the cursor.
- The choice of recall candidates in `collect`, with its cut at 128: the list after the cut is the input of `Delivery.Deliver`.
- Retained bases, expansion and the exposure log: bookkeeping after the answer is fixed.
- Staging of sources: its digest check is the same comparison as the one of a receipt's meaning.
- Raising of more than 50 due Commitments in one cycle: rows already raised keep their place in the query, so no liveness is claimed.
- Summaries, texts and prompts: arbitrary strings.
- HTTP routing, the Go command line and the KIP engine itself: plumbing, or not part of this model.
