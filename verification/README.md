# Runtime protocols of lurpicui, modelled in Dafny

lurpicui is a retained-mode user-interface engine with one runtime thread, worker pools and a socket protocol
("drive") through which a client watches and steers a running program. This project models the small state machines
on which those parts agree and proves what each promises over whole runs, every input or every interleaving.

| files | component |
|---|---|
| `StreamModel`, `StreamRuns`, `StreamLaws`, `StreamHub`, `StreamWitness`, `StreamWatch` | the shared bounded event log, read through per-subscriber cursors and credit |
| `LedgerModel`, `LedgerLaws`, `LedgerObject` | the at-most-once request ledger with first-in-first-out eviction of finished entries |
| `SessionModel`, `SessionTable` | sessions and the fencing of stale connections by generation |
| `JobModel`, `JobLaws`, `JobPool`, `JobOrder` | publication of worker results, the readiness frontier and the ordered commit |
| `FrameSizes`, `FrameSeal`, `FrameAssembly` | sorting, layering, sizing and copying a frame into one immutable page |
| `FrameLeases`, `FrameLeaseLaws`, `FrameTable`, `FrameViews` | reference-counted leases on frames and groups, submission and the published window set |
| `Observation`, `Snapshots` | copy-on-write pinning of tree observations, and paging through a snapshot |
| `LodHeap`, `AssetCache`, `AssetCaches`, `AssetRuns` | the asset cache: indexed heap, accounting, eviction, device loss |
| `PakToc` | lookup in a table of contents sorted by an eight-byte prefix |
| `Projection` | aggregation of layers over the facet tree and the pruned projection walk |
| `Focus`, `FacetPaths` | focus traps, scopes and tab order |
| `FacetTree`, `Ordering`, `Machine` | the facet tree and its pre-order; sorting by key; fixed-width arithmetic |

Two forms appear side by side. Code that updates objects is a class whose methods are tied to a function of the old
state; the whole-run results are lemmas about those functions over every sequence of operations. Code that runs on
several threads (`JobModel`, `JobOrder`, `FrameLeases`) is a step relation whose steps are the atomic or locked sections of the
code, and the results hold for every interleaving. What each operation itself brings about is stated beside that on
the fields a caller sees (the `...Laws` files and the lemmas named `...Meaning`), so that the functions the methods are
tied to are pinned down from outside. `dafny verify dfyconfig.toml` checks everything.

## What the proofs found

* **The credit window of a stream is not a bound.** `Drain` moves `sent` over records that match nothing without
  spending credit, and the remaining credit is an unsigned `Credit - (sent - acked)`, which wraps once that span
  passes the credit. `DrainWithinWindowIff` states exactly when one drain stays within the window,
  `StreamWitness` gives a six-step run from an empty hub after which one drain delivers twice its credit, and
  `WindowHoldsWhenEverythingMatches` proves the bound for streams that match every record.
* **`After = 0` starts at position 0.** The comment on the watch specification says "from the next record", and the
  one on `Watch` that a position whose next record was evicted is refused. The code starts the stream after position
  0 and exempts it from the refusal. `WatchStarts` states for every accepted watch when the stream has already lost
  its next record (position 0 and something evicted) and when it starts with the next record (asked for from the
  head); `WatchFromZeroExpires` is a reached state in which the first drain reports expiry.
* **A device loss can leave heap nodes the cache's table does not list.** `CheckDeviceGeneration` removes a GPU-only
  level from the table but not from the heap. The table lists every heap node afterwards if and only if there was
  no such level. If the key is tracked again, evicting the stale node removes the newer level from the table while
  its bytes stay counted: `AssetRuns.StaleEvictionRun` ends with an empty table and 40 bytes in use. An evicted node
  was the level its key named if and only if the table has its number (`NamedByKey`).
* **Tracking a level again with another texture forgets the old one.** `trackLOD` overwrites the texture of a tracked
  level without handing it back: its traces fall by one exactly when the level is tracked and held another texture
  (contract of `TrackLOD`, and `AssetRuns.ForgottenTextureRun`). All other ways a texture leaves the cache hand it
  back once.
* **A refused submission or a dropped result blocks the readiness frontier for ever** (`DeadBlocksFrontier`);
  `ReadyThrough` is a safety property only.

## Model

| member | source | states |
|---|---|---|
| StreamRuns.EvictKeepsLast | drive/stream.go:332-348 | eviction leaves a suffix with the exact byte total and both bounds met, and never removes the record just appended |
| StreamRuns.DeliverIsOwed | drive/stream.go:584-623 | the delivery loop over the retained tail returns exactly the matching records of the history over the span it moves across |
| StreamRuns.AppendKeepsInv | drive/stream.go:277-307 | after an append the retained records are the contiguous tail ending at the head with exact size, the new record survives, no live stream is below the floor, and every stream still agrees with its whole delivery history |
| StreamRuns.ApplyKeepsInv | drive/stream.go:277-717 | every operation (append, watch, ack, drain, cancel, connection and session close, sweep) keeps the log, stream and delivery-history invariant |
| StreamRuns.Run | drive/stream.go:277-717 | the invariant holds at the end of every run |
| StreamRuns.OwedIsSelection | drive/stream.go:92-118 | the recursive definition of owed records is the sound, complete, strictly ordered selection of matching records |
| StreamRuns.DeliveredWithoutGap | drive/stream.go:584-637 | in every run all records ever delivered on a stream are, in cursor order and each once, exactly the matching records over the cursors it passed |
| StreamRuns.NeverResumesAfterGap | drive/stream.go:311-329 | a stream whose next record was evicted, or that ended, never delivers again in any continuation |
| StreamRuns.AckForetellsDrain | drive/stream.go:441-485 | Ack answers sendable exactly when an immediately following drain delivers a record or reports expiry |
| StreamRuns.NotifiedStreamsDrain | drive/stream.go:641-682 | a stream is named by the notification scan exactly when its span is below its credit and a drain would be productive |
| StreamRuns.WindowHoldsWhenEverythingMatches | drive/stream.go:584-623 | for a stream whose filter matches every record, sent - acked stays within the credit in every run |
| StreamRuns.DrainWithinWindowIff | drive/stream.go:600-618 | one drain returns at most a window of records if and only if the span is within the credit or no more than a window is owed |
| StreamRuns.NoiseWidensSpan | drive/stream.go:615-618 | records that match nothing move sent to the head with no delivery and no credit spent |
| StreamWitness.OverrunIsReached | drive/stream.go:584-623 | six operations from an empty hub lead to the state of the overrun, which therefore satisfies the run invariant |
| StreamWitness.WindowOverrun | drive/stream.go:600-618 | a concrete drain delivers more records than its credit window |
| StreamWatch.WatchStarts | drive/stream.go:380-412 | an accepted stream has already lost its next record if and only if it was asked for from 0 and something was evicted; it starts with the next record to be appended if and only if it was asked for from the head; otherwise everything after its position is retained |
| StreamWatch.ZeroIsNextRecordIff | drive/stream.go:372-408 | position 0 means "from the next record" if and only if the log is empty |
| StreamWatch.DeadAtStartExpires | drive/stream.go:584-637 | a stream accepted below the floor is reported expired by its first drain, without a record |
| StreamWatch.TrimmedIsReached | drive/stream.go:277-348 | two appends into a log of one record lead to a floor above 1 |
| StreamWatch.WatchFromZeroExpires | drive/stream.go:380-412 | there a watch from 0 is accepted and its first drain reports expiry |
| StreamLaws.FilterMeaning | drive/stream.go:92-118 | an event passes exactly when its class is listed or none is, and, for state changes only, its name is listed or none is |
| StreamLaws.MatchedMeaning | drive/stream.go:603-621 | the matched events of a record are those at exactly the passing positions, each once, in order |
| StreamLaws.SelectsMeaning | drive/stream.go:603-621 | a record is worth delivering exactly when one of its events passes |
| StreamLaws.DeliveredRecords | drive/stream.go:584-623 | in every run each delivered record is an appended one of the span passed, with its cut, frame and exactly its passing events, in cursor order; and every record of that span with a passing event was delivered |
| StreamLaws.StoredMeaning | drive/stream.go:277-307 | the record appended is stored under the next cursor with its events renumbered from 0 and otherwise unchanged |
| StreamLaws.EvictionIsLeast | drive/stream.go:332-348 | retention drops the oldest records, each only while the count, the bytes or the age of what is left breaks a bound, and stops as soon as none does |
| StreamLaws.AckedIsAcknowledged | drive/stream.go:441-485 | in every run the acknowledged position of a stream is the one its last accepted ack carried, or its start |
| StreamLaws.AckMeaning | drive/stream.go:441-485 | the caller's own live stream takes a position between acked and sent and nothing else changes; any other ack changes nothing and says which check failed |
| StreamLaws.UnacknowledgedWithinCredit | drive/stream.go:584-623 | in every run a stream whose filter passes something of every record has at most its credit of delivered records above the position last acknowledged |
| StreamLaws.DrainMeaning | drive/stream.go:584-623 | a drain hands out exactly the first owed records up to the credit left, reaches the head unless the credit ran out, and changes nothing else |
| StreamLaws.WatchMeaning | drive/stream.go:380-412 | a watch is accepted exactly with credit 1 to 8, a filter of known distinct classes and nonempty names, fewer than 64 streams, a position up to the head and, unless it is 0, its next record retained |
| StreamLaws.ExpiryMeaning | drive/stream.go:627-637 | exactly live streams whose next record is gone expire, with reason and time, and keep their position |
| StreamLaws.CloseMeaning | drive/stream.go:489-576 | closing a connection or session, or cancelling, ends exactly its own live streams with its own reason |
| StreamLaws.SweepMeaning | drive/stream.go:703-717 | sweeping removes exactly the streams that ended more than ten minutes ago |
| StreamLaws.SizeMeaning | drive/stream.go:66-72 | a record is charged 64 bytes and 48 plus name and payload for each event |
| StreamHubs.StreamHub.constructor | drive/stream.go:233-242 | a new hub is the empty initial state |
| StreamHubs.StreamHub.EvictLocked | drive/stream.go:332-348 | the in-place eviction loop equals the recursive eviction |
| StreamHubs.StreamHub.ExpireBelowFloorAll | drive/stream.go:311-329 | expires exactly the live streams below the floor |
| StreamHubs.StreamHub.ScanForMatch | drive/stream.go:462-480 | the scan finds a match exactly when a retained record above the position matches |
| StreamHubs.StreamHub.CollectSendable | drive/stream.go:641-682 | the list holds exactly the streams the notification rule names |
| StreamHubs.StreamHub.Append | drive/stream.go:277-307 | the fields become those of the append step, errors included; the two lists to notify are exactly the sendable streams and the streams just expired |
| StreamHubs.StreamHub.Watch | drive/stream.go:380-412 | the fields become those of the watch step and the reply names the first failing check |
| StreamHubs.StreamHub.Ack | drive/stream.go:441-485 | the fields and the reply are those of the ack step; the caller's live stream gets exactly the position given when it lies between acked and sent, and otherwise no stream changes |
| StreamHubs.StreamHub.Drain | drive/stream.go:584-623 | the fields and the delivered records are those of the drain step |
| StreamHubs.StreamHub.Collect | drive/stream.go:603-621 | the loop over the records equals the recursive delivery |
| StreamHubs.StreamHub.Cancel | drive/stream.go:489-505 | cancels exactly the named stream |
| StreamHubs.StreamHub.CloseConnection | drive/stream.go:541-557 | cancels exactly the live streams of the connection |
| StreamHubs.StreamHub.CloseSession | drive/stream.go:560-576 | cancels exactly the live streams of the session |
| StreamHubs.StreamHub.Sweep | drive/stream.go:703-717 | removes exactly the reclaimable streams |
| LedgerModel.EvictIsFifo | drive/ledger.go:230-254 | eviction removes some number of terminal entries, always the oldest, each only while a bound is exceeded; the total stays exact and at the end both bounds hold or no terminal entry remains |
| LedgerModel.EvictKeeps | drive/ledger.go:230-254 | what eviction keeps is in order, unchanged, and includes every active entry |
| LedgerModel.ApplyKeepsInv | drive/ledger.go:146-254 | every operation keeps ordered identifiers up to the high-water mark and bytes equal to the sum of 256 plus payload |
| LedgerModel.ApplySettles | drive/ledger.go:146-254 | after a claim or completion both bounds hold or no terminal entry remains |
| LedgerModel.AdmittedInOrder | drive/ledger.go:146-175 | in every run the identifiers admitted are exactly 1..highWater in order |
| LedgerModel.AtMostOnce | drive/ledger.go:146-175 | from the empty ledger the admitted identifiers are 1..highWater, each exactly once |
| LedgerModel.LookupPartitions | drive/ledger.go:129-141 | Lookup answers unknown exactly above the high-water mark, retained exactly for held entries, expired otherwise |
| LedgerModel.ExpiredForever | drive/ledger.go:129-175 | an expired identifier stays expired and is never admitted again in any run |
| LedgerModel.OutcomeNeverChanges | drive/ledger.go:179-215 | a terminal entry keeps its value while retained, over every run |
| LedgerModel.ActiveNeverEvicted | drive/ledger.go:230-254 | a run that does not complete an entry still holds it, active, at the end |
| LedgerLaws.ResultMeaning | drive/ledger.go:179-192 | a result for an active request is looked up afterwards with exactly its payload, cut and frame and no error, on the same request, unless it was given up at once |
| LedgerLaws.ErrorMeaning | drive/ledger.go:206-215 | the same for an error, which leaves the payload empty |
| LedgerLaws.AcceptMeaning | drive/ledger.go:195-203 | an accepted request stays active with exactly that cut and frame, and every other lookup is as before |
| LedgerLaws.ClaimMeaning | drive/ledger.go:146-158 | the next identifier is afterwards looked up as an active request with its digest and operation and nothing else recorded |
| LedgerLaws.RejectMeaning | drive/ledger.go:163-175 | a rejection consumes the next identifier and is reported as that error, never as admitted |
| LedgerLaws.OutOfPlaceIgnored | drive/ledger.go:146-215 | an admission of any other identifier, and a completion or acceptance of a request not active, change nothing |
| LedgerLaws.ResultIsReplayed | drive/ledger.go:129-192 | through every later run a retried request is answered with exactly the result first recorded, or as expired |
| LedgerLaws.WithinBoundsKeepsAll | drive/ledger.go:230-254 | within 1024 entries and 4 MiB nothing is given up |
| LedgerLaws.EvictsIntoBounds | drive/ledger.go:230-254 | eviction ends within 1024 entries and 4 MiB, or with active entries alone |
| LedgerLaws.OldestFirst | drive/ledger.go:230-254 | an entry given up was terminal and older than every terminal entry left |
| LedgerLaws.CostMeaning | drive/ledger.go:256-258 | an entry costs 256 bytes plus its payload |
| Ledgers.OutcomeLedger.EvictLocked | drive/ledger.go:230-254 | the in-place loop equals the recursive eviction |
| Ledgers.OutcomeLedger.Lookup | drive/ledger.go:129-141 | returns the disposition and, when retained, the held object |
| Ledgers.OutcomeLedger.FindLocked | drive/ledger.go:219-226 | finds the held object with this identifier or none |
| Ledgers.OutcomeLedger.Claim | drive/ledger.go:146-158 | performs the claim step and returns a fresh entry exactly when admitted |
| Ledgers.OutcomeLedger.ClaimRejection | drive/ledger.go:163-175 | performs the rejection step and returns a fresh terminal entry exactly when admitted |
| Ledgers.OutcomeLedger.CompleteResult | drive/ledger.go:179-192 | completion through a held pointer is the result step and leaves exactly that payload, cut and frame on the entry; a pointer no longer held or already terminal changes nothing |
| Ledgers.OutcomeLedger.CompleteError | drive/ledger.go:206-215 | the same for an error, with exactly that error on the entry |
| Ledgers.OutcomeLedger.MarkAccepted | drive/ledger.go:195-203 | records cut and frame on a held active entry only |
| SessionModel.FencedForever | drive/session.go:104-158 | a generation once fenced stays fenced and none of its operations succeeds in any run |
| SessionModel.LossFences | drive/session.go:104-145 | attaching over a connection, detaching it or expiring the session fences its generation |
| SessionModel.AttachmentsIncrease | drive/session.go:104-120 | a later successful attach gets a strictly larger generation than any connection before it, and fences it |
| SessionModel.ExpiredIsAbsorbing | drive/session.go:171-175 | an expired session stays expired and nothing on it succeeds |
| SessionModel.CurrentSucceeds | drive/session.go:136-158 | the attached current generation succeeds, and goes on succeeding through every run without an attach, detach or expiry of it |
| SessionModel.AttachedWorks | drive/session.go:104-158 | whatever happened before, a successful attach hands out the next generation and its operations succeed until it is lost |
| SessionModel.DetachThenResume | drive/session.go:104-169 | a detached session can be attached again under the next generation, and is overdue exactly ten minutes after the moment it was detached at |
| Sessions.Session.Attach | drive/session.go:104-120 | the fields become those of the attach step; the returned generation is the new one |
| Sessions.Session.Detach | drive/session.go:124-131 | detaches only an attached session, recording the time |
| Sessions.Session.DetachGeneration | drive/session.go:136-145 | succeeds exactly for the attached current generation |
| Sessions.Session.WithAttachedGeneration | drive/session.go:150-158 | the callback takes effect exactly for the attached current generation, and the session does not change |
| Sessions.Session.Expire | drive/session.go:171-175 | the state becomes expired |
| Sessions.SessionTable.Create | drive/session.go:261-273 | refused exactly at 32 sessions or when the random source fails; otherwise adds one new session |
| Sessions.SessionTable.Resume | drive/session.go:278-297 | succeeds exactly for a known identifier, matching credential and session not past recovery, and fences the old generation unless the counter wraps; an overdue session is expired, removed and counted |
| Sessions.SessionTable.Revoke | drive/session.go:308-319 | removes, expires and counts exactly the named session |
| Sessions.SessionTable.Sweep | drive/session.go:350-362 | removes and expires exactly the overdue sessions, returns and counts how many, and leaves the others as they were |
| Sessions.SessionTable.ExpireLocked | drive/session.go:365-369 | expires and removes one session and counts it |
| JobModel.StepKeeps | job/job.go:461-653 | assign, drop, send, record, receive and record-drain each keep the pool's fields in step with every submission's progress |
| JobModel.RunKeeps | job/job.go:897-1013 | the same over every interleaving |
| JobModel.ReadyThroughMeansPublished | job/job.go:337-349 | when ReadyThrough(f) holds, every assigned sequence up to f has been sent |
| JobModel.CountersAgree | job/job.go:690-718 | ready and drainedEarly of a job are never both positive and differ by results recorded minus drained |
| JobModel.FrontierIsClosed | job/job.go:337-349 | once ready, a frontier stays ready and nothing at or below it enters the channel later |
| JobModel.DeadBlocksFrontier | job/job.go:607-651 | a refused or dropped submission keeps every frontier that covers it from becoming ready |
| JobLaws.BookMeaning | job/job.go:978-998 | the worker's record makes exactly its own submission ready, unless the drainer recorded it first |
| JobLaws.BookDrainMeaning | job/job.go:695-714 | the drainer's record ends the submission's wait and is remembered only for a worker yet to record it |
| JobLaws.OrderDoesNotMatter | job/job.go:690-718 | recording by worker and by drainer commute: in either order the submission waits nowhere and the counters are where they were |
| JobLaws.SubmittedBecomesReady | job/job.go:337-349 | assigned, sent and recorded with nobody interfering, a submission makes its frontier ready exactly when everything before it is |
| JobLaws.LifeLeavesNothing | job/job.go:690-718 | assigned, sent, received and recorded by both over an empty channel, a submission leaves nothing in the pool but the number it used |
| JobPools.JobPool.Assign | job/job.go:556-563 | the next sequence is pending and not ready |
| JobPools.JobPool.Publish | job/job.go:978-998 | the worker's locked section on the shared maps |
| JobPools.JobPool.RecordDrain | job/job.go:695-714 | the drainer's locked section on the shared maps |
| JobPools.JobPool.ReadyThrough | job/job.go:337-349 | true exactly when no unready sequence at or below the frontier is pending, whatever the order of the scan |
| JobPools.JobPool.DrainOrdered | job/job.go:686-747 | each received result is recorded under the lock in turn; the output is the results in ascending sequence; the application state moves through exactly the mutations of the results that are uncancelled, error-free, allowed and version-valid in the state before them, and exactly those are committed |
| JobPools.CommitLoop | job/job.go:722-747 | the loop passes through states each of which is the mutation of the one before when its result is uncancelled, error-free, allowed and version-valid there, and that one unchanged otherwise |
| JobPools.ArrivalOrderIrrelevant | job/job.go:690-747 | the outcome depends on the set of published results, not on arrival order |
| JobPools.CommitsInOrder | job/job.go:722-747 | commits are in strictly increasing submission order |
| JobPools.CommitSplits | job/job.go:722-747 | the commits up to any point finish before later ones start and see none of their effects |
| JobPools.StateLaw | job/job.go:574-599 | the state after result k is its mutation of the state before exactly under the four conditions, otherwise unchanged |
| JobPools.CommitsIff | job/job.go:574-599 | a result commits exactly when uncancelled, error-free, allowed by its fence and version-valid in the state left by all smaller sequences |
| JobOrder.FrontierReceived | job/job.go:690-718 | when a ready frontier meets an empty channel, every submission up to it has been received |
| JobOrder.ReadyThenDrained | job/job.go:337-349 | the same at the end of every run that starts with a ready frontier |
| JobOrder.BatchIsDrainable | job/job.go:690-720 | no sequence is received twice, so the ordered drain applies to every batch |
| JobOrder.FlushCommits | job/job.go:719-747 | one drain commits part of its batch in strictly increasing order |
| JobOrder.OnlyNewer | job/job.go:690-747 | once everything up to f was received and its batch committed, only newer submissions are ever committed |
| JobOrder.FrontierCommitsFirst | job/job.go:337-349 | once ReadyThrough(f) holds, under every interleaving of workers and drains every commit of a submission up to f precedes every commit above f |
| FrameSizes.Product64 | gfx/command_pages.go:420-431 | the product behind the division guard of a payload slice is exact, refused exactly when it exceeds uint64 |
| FrameSizes.SizeProduct64 | gfx/command_pages.go:408-413 | the checked slot product is exact, refused exactly when it exceeds uint64 |
| FrameSizes.PayloadBytes | gfx/command_pages.go:256-302 | the payload size is exact, refused exactly on overflow or an unsupported command |
| FrameSizes.PageBytes | gfx/command_pages.go:157-179 | the page estimate is exact, refused exactly on overflow or an unsupported command |
| FrameSizes.PageMeaning | gfx/command_pages.go:157-179 | a page takes one view and one font-lease pointer a command and every command's base and slices, elements times element size |
| FrameSeal.AddSlice | render/frame_pages.go:129-141 | adds count times size, refused exactly on overflow |
| FrameSeal.EstimateFrameBytes | render/frame_pages.go:80-127 | the frame estimate is exact, refused exactly when the input cannot be sealed or the size exceeds uint64 |
| FrameSeal.FrameMeaning | render/frame_pages.go:80-127 | the frame size in closed form over all commands, batches, ranges, layers and dirty rectangles |
| FrameSeal.PageIsSum | render/frame_pages.go:80-127 | one page for all batches needs exactly the sum of the per-batch estimates |
| FrameSeal.EstimateCoversPage | render/frame_pages.go:146-212 | if the frame estimate fits the reservation, the page's own estimate cannot overflow or exceed it |
| FrameSeal.ReadsBack | gfx/command_pages.go:195-216 | each batch's range of the page is exactly that batch's commands |
| FrameSeal.MeasurePass | gfx/command_pages.go:37-76 | the first visit yields the exact size, refused exactly on another number of commands, an unsupported one or overflow |
| FrameSeal.CopyPass | gfx/command_pages.go:80-148 | the second visit is copied command by command, refused exactly when it yields another number, an unsupported command or more bytes than estimated |
| FrameSeal.SealFromSource | gfx/command_pages.go:33-153 | for a source that may change between the two visits: the page holds what the second yielded, and succeeds exactly when both have the declared number of supported commands, the first fits the reservation and the second did not grow |
| FrameSeal.SealPage | render/frame_pages.go:170-181 | the page holds the commands of all batches in order with the exact size, refused exactly when unsupported, overflowing or over the reservation |
| FrameSeal.SealFrame | render/frame_pages.go:146-212 | succeeds exactly when sealable, fitting, all layers in range and the reservation publishes; each failure is given exactly for its own check, a bad layer being the first one; the frame then shows each batch's own commands, metadata, layers, dirty regions, surface and window, an unnamed window being the primary one |
| FrameSeal.Ranges | render/frame_pages.go:182-190 | ranges start where the batches before them end |
| FrameAssembly.GroupLayers | runtime/core.go:634-655 | layers tile the batches, are uniform in order and clip, and neighbours differ |
| FrameAssembly.TiledLayersSeal | render/frame_pages.go:191-198 | tiling layers always pass the seal's range check |
| FrameAssembly.CollectItems | runtime/core.go:583-624 | item i carries, for batch i, its commands and then its selection, between its transform's push and pop if it has one; its facet, bounds and opacity; and the resolver's order, clip and depth, or zero |
| FrameAssembly.SortedCovers | runtime/core.go:625-633 | the sorted items stand for the projected batches, each exactly once |
| FrameAssembly.Assemble | runtime/core.go:579-658 | every batch appears once, in order of (order, z, index), with its own commands, selection, transform and placement; the layers are the maximal runs of equal order and clip |
| FrameAssembly.AssembleAndSeal | runtime/core.go:579-658 | assemble then seal succeeds exactly when the estimate fits, and the frame shows, for every projected batch in paint order, its commands and then its selection, between the push and pop of its transform if it has one, with its facet, bounds and opacity |
| FrameLeases.StepKeeps | render/frame_pages.go:330-378 | every atomic step of Retain, Release and cleanup keeps the counting invariant on frames and groups |
| FrameLeases.RunKeeps | render/frame_group.go:88-120 | the same over every interleaving |
| FrameLeases.CountIsExact | render/frame_pages.go:330-378 | refs is live leases plus pending decrements, at most 8, and cleanup starts exactly once, when it is zero |
| FrameLeases.HeldMeansIntact | render/frame_group.go:81-120 | while a lease is held no cleanup has started, nor on any member frame of a held group |
| FrameLeases.RetiredStep | render/frame_pages.go:351-378 | after zero a step can only advance the cleanup |
| FrameLeases.NeverRevived | render/frame_pages.go:330-378 | a count that reached zero never rises, and cleanup is never repeated, in any continuation |
| FrameLeaseLaws.SwapLaw | render/frame_pages.go:330-347 | with a loaded count from 1 to 7 that is still current the swap gives the lease and raises the count by one; if the count moved the thread loads again; it gives up exactly on a count outside 1 to 7 |
| FrameLeaseLaws.UninterruptedRetain | render/frame_pages.go:330-347 | a Retain through a held lease that nobody interrupts yields a lease exactly when fewer than 8 are counted |
| FrameLeaseLaws.ReleaseLaw | render/frame_pages.go:351-378 | a release flags the lease, then lowers the count by one, and starts the cleanup exactly when it lowers it to zero |
| FrameLeaseLaws.UninterruptedRelease | render/frame_pages.go:351-378 | a Release that nobody interrupts frees its lease and starts the cleanup exactly when it was the last one counted |
| FrameLeaseLaws.SealLaw | render/frame_pages.go:146-212 | a new frame is counted by its first lease alone |
| FrameLeaseLaws.GroupLaw | render/frame_group.go:35-53 | a new group is counted by its first lease alone and owns its member leases, which stay held and which nobody else can release |
| FrameLeaseLaws.CleanupLaw | render/frame_group.go:103-120 | one cleanup action of a group flags its next member lease for release and nothing else |
| FrameLeaseLaws.CleanupCompletes | render/frame_group.go:103-120 | once the count is zero the cleanup can be run to its end, after which no member lease is held |
| FrameTable.RetainKeeps | render/frame_pages.go:330-347 | a retain adds one free lease and disturbs nobody |
| FrameTable.ReleaseKeeps | render/frame_group.go:103-120 | a release keeps every other holder's lease and every member of a live group |
| FrameTable.ReleaseMeaning | render/frame_group.go:103-120 | a release takes away its lease and, exactly when that was the last on a group, every member lease of it, and nothing else |
| FrameTable.SealKeeps | render/frame_pages.go:146-212 | a new frame disturbs nobody |
| FrameTable.GroupKeeps | render/frame_group.go:35-53 | a new group takes over its member leases and disturbs no other holder |
| FrameViews.GroupFrames | render/frame_group.go:35-53 | the frames of a held group are live and all different |
| FrameViews.ExtendLeavesRoom | render/frame_group.go:81-87 | retaining one window does not use up another's room, so a window can be retained exactly when its frame has fewer than 8 leases |
| FrameViews.Runtime.Submit | runtime/frame.go:272-283 | the group is pending under a new frame number with a lease of the runtime's own; refused exactly at the lease limit, and then the caller's lease is given back |
| FrameViews.Runtime.SurfaceChanged | runtime/surface.go:73-100 | a new surface generation changes nothing else |
| FrameViews.Runtime.OtherRetains | render/frame_group.go:88-102 | another holder's retain keeps everything the runtime relies on |
| FrameViews.Runtime.OtherReleases | render/frame_group.go:103-120 | another holder's release keeps everything the runtime relies on |
| FrameViews.Runtime.OtherSeals | render/frame_pages.go:146-212 | sealing elsewhere keeps everything the runtime relies on |
| FrameViews.Runtime.OtherGroups | render/frame_group.go:35-53 | grouping elsewhere keeps everything the runtime relies on |
| FrameViews.Runtime.Admissible | runtime/drive_methods.go:342-357 | the checks pass exactly when the completion is not stale against its group |
| FrameViews.Runtime.RetainAll | runtime/drive_methods.go:358-371 | retains every window, or undoes everything; it succeeds exactly when every window's frame has fewer than 8 leases |
| FrameViews.Runtime.TryPublish | runtime/drive_methods.go:334-377 | publishes exactly when ready, not failed, not stale and every window's frame has fewer than 8 leases |
| FrameViews.Runtime.CompleteFrameView | runtime/drive_methods.go:322-378 | an unknown or wrong-generation completion changes nothing; otherwise the group is consumed and published exactly when the completion is ready and not failed, not older than what is shown, names the group's windows all ready, the primary one on the current surface, and each frame has fewer than 8 leases; what is published is the complete window set of one group, the ready frame never goes back, and leases are conserved |
| FrameViews.Runtime.ReleaseFrameViews | runtime/drive_methods.go:380-391 | gives back all of the runtime's leases and no one else's |
| FrameViews.ReleaseConserves | runtime/drive_methods.go:332-341 | dropping a pending group conserves leases |
| FrameViews.ReadyConserves | runtime/drive_methods.go:333-377 | publishing a group and dropping the old one conserves leases |
| FrameViews.PublishShows | render/frame_group.go:81-87 | the published frames are the complete window set of the group |
| FrameViews.MemberGoneGroupGone | render/frame_group.go:103-120 | a lease owned by a group disappears only when the group has lost its last lease |
| FrameViews.LostOnlyWithGroup | render/frame_group.go:103-120 | where leases are conserved, another holder's lease is lost only as a member of such a group |
| FrameViews.PublishingRun | runtime/drive_methods.go:322-378 | a run from an empty process that seals, groups, submits and publishes |
| Observation.RowsPrefix | runtime/drive_methods_locate.go:334-352 | the rows, count and charge of the first pages depend on those pages only |
| Observation.RowAt | runtime/drive_methods_locate.go:334-352 | row j of page k stands after all rows of earlier pages |
| Observation.Rows | runtime/drive_methods_locate.go:334-352 | the nested scan returns exactly rows start to end of the listing |
| Observation.KeptCaptures | runtime/drive_methods_locate.go:219-268 | the selected rows are those at a strictly ascending list of positions, exactly the selected ones |
| Observation.PageMeaning | runtime/drive_methods_locate.go:297-305 | a page is the run of rows from the offset, at most the limit, full and followed by its successor unless it reaches the end |
| Observation.PagingReadsEverythingOnce | runtime/drive_methods_locate.go:297-305 | following next with any limits from 1 to 256 reads every row once in order, and ends within one request per row |
| Snapshots.MakePages | runtime/drive_observation.go:170-178 | the pages tile the entries in runs of 256 over the same array |
| Snapshots.Select | runtime/drive_methods_locate.go:219-268 | the page directory lists the rows at exactly the selected positions, each once and in ascending order, one directory entry for each page with a selected row |
| Snapshots.ChargeMeaning | runtime/drive_methods_locate.go:256-274 | a snapshot is charged two bytes an entry shown, 32 a page touched and, unless it is empty, the whole index generation |
| Snapshots.Pin | runtime/drive_methods_locate.go:290-292 | each page of the snapshot gains one reference, no other page does |
| Snapshots.Unpin | runtime/drive_methods_locate.go:134-139 | each page of the snapshot loses one reference, no other page does, and none goes negative |
| Snapshots.BudgetInsert | runtime/drive_methods_locate.go:275-294 | an admitted snapshot keeps retained bytes equal to the sum, within 8 MiB, and handles within 8 per session |
| Snapshots.BudgetRemove | runtime/drive_methods_locate.go:140-144 | a deletion keeps them so and the total never goes negative |
| Snapshots.Runtime.constructor | runtime/drive_observation.go:59-68 | an empty index, to be filled on first use |
| Snapshots.Runtime.Fill | runtime/drive_observation.go:109-154 | the array holds the new entries, or the fill gives up exactly when the byte capacity is exceeded |
| Snapshots.Runtime.ChooseArray | runtime/drive_observation.go:79-92 | a new array is taken exactly when a current page is held; then no snapshot reads the array to be written |
| Snapshots.Runtime.UnpinnedMeansUnviewed | runtime/drive_observation.go:79-92 | when no current page is held, no retained snapshot views the current array |
| Snapshots.Runtime.Refresh | runtime/drive_observation.go:78-168 | the index shows the new tree, or is exhausted exactly when over capacity, and every retained snapshot still shows the rows it was taken with |
| Snapshots.Runtime.AtCut | runtime/drive_observation.go:59-76 | refreshes only when dirty and keeps every snapshot's rows |
| Snapshots.Runtime.Delete | runtime/drive_methods_locate.go:132-146 | removes one snapshot; page references still equal the number of holders |
| Snapshots.Runtime.Cleanup | runtime/drive_methods_locate.go:148-158 | exactly the snapshots whose expiry lies ahead remain, unchanged |
| Snapshots.Runtime.CountOwned | runtime/drive_methods_locate.go:278-283 | counts the session's handles whatever the map order |
| Snapshots.Runtime.Create | runtime/drive_methods_locate.go:219-295 | succeeds exactly when the charge fits 8 MiB, the session has fewer than 8 handles and a token is left; the handle captures the rows at exactly the selected positions, each once in order; a refusal changes nothing |
| Snapshots.Runtime.ReadPage | runtime/drive_methods_locate.go:297-305 | the page and next offset are those of the rows the snapshot was taken with |
| Snapshots.Runtime.TreeDump | runtime/drive_methods_locate.go:168-320 | a new listing's token captures the rows at exactly the selected positions, each once and in order, for 60 seconds; every listing, fresh or continued, is the run of its snapshot's original rows from the offset, at most limit (256 for 0) long, with the next offset unless it reaches the end; it is read only by its owner before expiry; each of the three errors is given if and only if its check fails on the state before the call |
| LodHeap.RootIsLeast | assets/cache.go:51-63 | the root of an ordered heap comes before every node by (last use, asset, level) |
| LodHeap.SwapKeeps | assets/cache.go:65-69 | a swap keeps nodes, totals and recorded indices |
| LodHeap.Down | assets/cache.go:51-85 | sifting down restores order or leaves the heap as it was with only the upward relation open |
| LodHeap.Up | assets/cache.go:51-85 | sifting up restores order with the same nodes and exact indices |
| LodHeap.Fix | assets/cache.go:113-113 | after a node changed, order is restored with the same nodes and exact indices |
| LodHeap.Push | assets/cache.go:71-75 | the heap gains exactly one node and stays ordered and indexed |
| LodHeap.Pop | assets/cache.go:77-85 | the least node leaves and the rest stay ordered and indexed |
| AssetCache.DistinctUnderSame | assets/cache.go:149-169 | rearranging nodes keeps them distinct |
| AssetCache.PopMinEvictable | assets/cache.go:149-169 | the victim is unpinned and least among all unpinned nodes, nothing else leaves, and no victim means all are pinned |
| AssetCaches.ClearKeeps | assets/cache.go:207-209 | clearing GPU fields in place keeps order, links and totals |
| AssetCaches.DropKeeps | assets/cache.go:246-248 | dropping the victim with its key and bytes keeps order, links and totals |
| AssetCaches.NamedByKey | assets/cache.go:246-248 | a victim was the level its key named if and only if the table has its number; otherwise that level stays in the heap, unlisted |
| AssetCaches.HandedBackOnce | assets/cache.go:243-245 | when no texture is traced twice, none was handed back twice and none handed back is still held |
| AssetCaches.DropKey | assets/cache.go:295-300 | removing a key whose node stays leaves a heap node the table does not list |
| AssetCaches.VictimsAreOldest | assets/cache.go:149-169 | victims have no positive reference count, go by (last use, asset, level), and every unreferenced node left is no older than any of them |
| AssetCaches.ClearedMeaning | assets/cache.go:176-226 | a GPU eviction takes exactly texture and GPU bytes from the unreferenced candidates it saw, oldest first, and counts them |
| AssetCaches.LossMeaning | assets/cache.go:263-306 | after a device loss a level remains exactly when it had CPU bytes or no GPU data, and remains without GPU data |
| AssetRuns.DeviceLossLeavesStaleNode | assets/cache.go:263-306 | tracking a GPU-only level and losing the device leaves a cleared node with the old key that the table does not list |
| AssetRuns.TrackedAgain | assets/cache.go:99-127 | tracking the level again puts two nodes with its key in the heap |
| AssetRuns.ForgottenTextureRun | assets/cache.go:104-113 | a level tracked again with another texture: the first is neither held nor handed back |
| AssetRuns.StaleEvictionRun | assets/cache.go:332-353 | evicting then ends within budget with an empty table and 40 bytes still counted |
| AssetCaches.Cache.constructor | assets/cache.go:88-96 | an empty cache |
| AssetCaches.Cache.TrackLOD | assets/cache.go:99-127 | the table maps the key to the new figures, all other levels and nodes are unchanged, and the totals follow; a replaced texture is forgotten, and no texture becomes traced twice if the new one is new or the level's own |
| AssetCaches.Cache.EvictOne | assets/cache.go:239-253 | removes the least recently used unpinned node, its key, bytes and texture, or reports that all are pinned; it was the level its key named if and only if the table has its number |
| AssetCaches.Cache.Evict | assets/cache.go:238-254 | ends within both targets or with everything pinned; victims are the least recently used unpinned nodes in order, none pinned, and the last was still needed; every texture that left the heap was handed back once |
| AssetCaches.Cache.EvictIfNeeded | assets/cache.go:332-353 | ends within the budgets or with every node referenced; no victim had a positive reference count, victims go by (last use, asset, level), no unreferenced node left is older, and before the last one a budget was exceeded |
| AssetCaches.Cache.EvictToWatermark | assets/cache.go:231-256 | the same with watermark targets and the number evicted, nothing when there is no budget; every pinned level is unchanged |
| AssetCaches.Cache.EvictGPUToWatermark | assets/cache.go:176-226 | in order of last use, levels without a positive reference count lose their texture and GPU bytes and nothing else until the target is met or all candidates are seen; no level leaves the table, the count is of the levels cleared, and every texture cleared was handed back once |
| AssetCaches.Cache.CheckDeviceGeneration | assets/cache.go:263-306 | on a new generation every listed node loses its GPU fields in place, all other nodes are untouched, a level leaves the table exactly when it had GPU data and no CPU bytes, and every texture cleared was handed back once; the table lists every heap node exactly when there was no such level |
| PakToc.TocSearch | assets/pak.go:49-76 | finds some entry with the identifier exactly when there is one, prefix collisions included |
| PakToc.FindEntry | assets/pakfs.go:302-332 | returns the first entry whose identifier and level are those asked for, exactly as a linear scan would, and not-found exactly when there is none |
| PakToc.ScanIsFirst | assets/pakfs.go:302-332 | the linear scan is the first match |
| PakToc.PrefixInjective | assets/pakfs.go:407-416 | equal prefixes are exactly equal leading bytes |
| PakToc.PrefixIsLexicographic | assets/pakfs.go:407-416 | prefixes compare as the leading bytes do, first byte first |
| PakToc.ReadBlock | assets/pakfs.go:350-360 | the entry's bytes when they lie in the file, nothing when the range leaves it or wraps |
| Projection.HasLayerUnfolds | projection/projection.go:511-525 | a subtree has a layer exactly when its root is one or a child's subtree has one |
| Projection.Aggregate | projection/projection.go:511-525 | the reverse pass sets each node's flag to "this node or a descendant is a layer" |
| Projection.BuildProjectionTree | projection/projection.go:460-526 | the node list is the pre-order of the facet tree with exact aggregated flags |
| Projection.BuildList | projection/projection.go:460-510 | the explicit-stack build lists nodes in pre-order with their children linked |
| Projection.WalkNode | projection/projection.go:548-662 | the explicit-stack walk over the built nodes, pruning by the aggregated flag, equals the recursive pruned walk of the facet tree |
| Projection.EveryLayerReached | projection/projection.go:548-662 | with no poisoned facet the walk visits every layer although it prunes gated subtrees |
| Projection.WalkedIffReachable | projection/projection.go:548-662 | a facet is visited exactly when some way of children leads to it past no poisoned child and through no invisible facet without a layer below |
| Projection.OpenIsShown | projection/projection.go:548-662 | a mounted facet not arranged to empty bounds, under such facets only and with no poison on the way, is visited and materialised with all its regions |
| Projection.HiddenIsPruned | projection/projection.go:548-662 | an unmounted or empty facet without a layer below is all the walk visits of its subtree, and shows nothing |
| Projection.WalkInPreorder | projection/projection.go:548-662 | what the walk visits is a subsequence of the pre-order |
| Projection.ProjectTree | projection/projection.go:460-662 | build, aggregate and walk together visit, in pre-order, exactly the reachable facets, with none poisoned every layer among them; a facet is materialised with its regions exactly when mounted and not arranged to empty bounds, layers being exempt from the latter |
| Projection.BuildHitMap | projection/projection.go:1262-1284 | the hit map is the outputs with regions, exactly those, from the last to the first |
| FacetPaths.PathsMean | facet/focus.go:390-403 | the way up from a facet names exactly the facets whose subtree holds it |
| Focus.IsWithinScope | facet/focus.go:390-403 | the climb to the root decides the scope |
| Focus.InScopeIsSubtree | facet/focus.go:390-403 | a facet is inside a scope exactly when the scope's facet has it in its subtree |
| Focus.FirstIn | facet/focus.go:358-365 | a facet that can take focus with none before it in the order, or 0 when there is none |
| Focus.NormalizedNonzero | facet/focus.go:140-153 | the wanted stack holds only nonzero scopes of the request, each once |
| Focus.NormalizedComplete | facet/focus.go:140-153 | every nonzero scope is in it, as first requested |
| Focus.NormalizedMeaning | facet/focus.go:140-153 | the wanted stack is the first request of every nonzero scope, in the order requested, with its restore mode |
| Focus.ForwardBackward | facet/focus.go:170-201 | next then previous, and previous then next, return to the start and stay in the order |
| Focus.FullCycle | facet/focus.go:170-184 | as many nexts as there are entries come back to the start |
| Focus.FilteredFacts | facet/focus.go:273-284 | the filtered order holds exactly the entries allowed by every trap, each once |
| Focus.NextMeaning | facet/focus.go:170-201 | from a facet inside the traps, next leads to the nearest later facet of the whole order inside them, or after the last to the first, and previous leads back |
| Focus.EntryMeaning | facet/focus.go:170-201 | with focus on no such facet, next leads to the first facet inside the traps and previous to the last |
| Focus.NextOf | facet/focus.go:170-184 | the modular index step is the cyclic successor |
| Focus.PreviousOf | facet/focus.go:187-201 | the modular index step is the cyclic predecessor |
| Focus.VisitAll | facet/focus.go:217-243 | the explicit-stack walk visits the tree in pre-order |
| Focus.EntriesFacts | facet/focus.go:232-237 | the entries are exactly those of the tabbable facets, in order of position |
| Focus.SortedTabOrder | facet/focus.go:217-259 | the tab order is the entries sorted by (tab index, pre-order position) |
| Focus.SortedMeaning | facet/focus.go:217-259 | the sorted entries are exactly the focusable facets with tab index zero or more, with their own position, ascending by tab index and then position |
| Focus.TabOrderOk | facet/focus.go:245-259 | with unique identifiers the order lists known focusable facets once each |
| Focus.FocusManager.SetFocus | facet/focus.go:72-106 | succeeds exactly when the target is empty or focusable inside every trap |
| Focus.FocusManager.PushTrap | facet/focus.go:307-320 | the trap remembers the old focus, which stays exactly when it is not empty and inside the new scope, and otherwise moves to the first focusable facet inside every trap |
| Focus.FocusManager.PopTrap | facet/focus.go:322-356 | the top trap goes; restoring previous gives back the remembered facet if it can still take focus, first gives the first focusable one, nowhere clears focus on an empty stack; every other case ends on the first focusable facet, and focus is always inside the remaining traps |
| Focus.FocusManager.SyncFocusTraps | facet/focus.go:140-167 | the stack becomes the first request of every nonzero scope in the order requested, with focus empty or focusable inside every trap; traps below the first difference still remember their focus, and a request for the scopes already there moves nothing |
| Focus.FocusManager.OpenThenClose | facet/focus.go:307-356 | a trap that restores the previous focus is pushed, any traps and focus moves happen inside it, and popping down to it gives back the old stack and the old focus |
| Focus.FocusManager.RebuildTabOrder | facet/focus.go:205-271 | the order lists exactly the focusable facets with tab index zero or more by tab index and pre-order position, and focus survives exactly when its facet is still there, still focusable and still inside every trap |
| Focus.FocusManager.TabNext | facet/focus.go:170-184 | focus moves to the cyclic successor in the filtered order |
| Focus.FocusManager.TabPrev | facet/focus.go:187-201 | focus moves to the cyclic predecessor in the filtered order |
| Ordering.SortUnique | job/job.go:690-747 | two sorted rearrangements of the same elements with distinct keys are the same sequence |
| Ordering.Sort | runtime/core.go:625-633 | the executable sort returns the sorted rearrangement |

## Left out

- Socket server, tokens, credential hashing, JSON and canonical request digests: a digest and a credential are opaque values compared for equality.
- Stream `BindDelivery`, `Status`, `Get` and the notification callback: field reads and I/O.
- Streams: identifiers are numbers, streams are values in the hub's map, the clock is read once per operation, and record sizes are unbounded integers.
- StreamRuns.AckForetellsDrain: assumes the head is below the largest uint64, because `sent + 1` wraps there.
- StreamRuns.NotifiedStreamsDrain: assumes the head is below the largest uint64, for the same reason.
- StreamLaws.DrainMeaning: assumes the head is below the largest uint64, for the same reason.
- StreamLaws.ExpiryMeaning: assumes the position is below the largest uint64, for the same reason.
- LedgerLaws.OutOfPlaceIgnored: states it below the largest uint64, where the identifier counter would wrap to 0, as LedgerLaws.ClaimMeaning and LedgerLaws.RejectMeaning do.
- JobLaws.SubmittedBecomesReady: is about a submission whose steps follow each other; that a worker gets to run is not modelled.
- The render pipeline: its own lease handling is a step of another holder; frame numbers come from a counter that does not wrap.
- LedgerModel.AdmittedInOrder: states the order below the largest uint64, where the identifier counter would wrap to 0.
- Job pool memory wallets, replacement, pausing and shutdown, and liveness after refused or dropped results.
- JobPools.JobPool.DrainOrdered: fences, version checks and commits are functions of one application state evaluated on the draining thread, and acknowledging the reservations is not modelled.
- Frame assembly: routing of batches to windows, the computation of dirty regions, the geometry of the selection command and clip comparison of not-a-number rectangles; clips are integer rectangles.
- Font pinning failure and `sealFrameGroup`'s cancellation of reservations: the reservation type is not part of this model, only its size and whether it lets itself be published.
- Locator resolution, the depth filter of `tree.dump` and the by-identifier map of the index: the selected positions are an arbitrary set.
- The 256 KiB payload check of `tree.dump`, cut and frame labels, and parsing of the offset string.
- Node entries of the cache are numbered values in the heap slice rather than objects, so sharing of an entry with code outside the cache is not captured; asset identifiers are numbers in the order of their printed form.
- Watermark fractions are byte targets; registry bookkeeping other than reference counts, int64 overflow of the totals and a missing backend are not modelled.
- AssetCaches.Cache.EvictGPUToWatermark: breaks ties of last use by key, where the source leaves them to an unstable sort over map order.
- Focus: focusability and containment change only when the tab order is rebuilt, callbacks do not re-enter the manager, and facet identifiers in one tree are unique and nonzero.
- Projection cache keys, transforms, clips and poisoned-facet recovery: a fixed resolver decides gating.
- Platform, rendering backends, asset decoding, text, gestures, diagnostics and grants: input and output, or single-branch facts.
