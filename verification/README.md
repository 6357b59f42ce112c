# MiniDB++ in Dafny

MiniDB++ is a small relational engine: a page store with a physical write-ahead log, a buffer pool that may
write uncommitted pages (STEAL) and need not write committed ones (NO-FORCE), restart recovery, a paged B+ tree
and a slotted heap page, and a small SQL layer. This project models those parts and proves what they are for.
Everything is stated for all inputs, all runs and all reachable states; nothing here executes the engine.

What is proved, hardest first:

- **Crash safety over whole runs.** The engine is a step system (`CrashModel`): every durable effect is a step of
  its own, unsynced page writes may or may not survive, and a crash may come between any two steps, those of
  recovery included. Every state of every run keeps one invariant (`CrashRuns.RunInvariant`), and at every moment
  the published database is the one a crash-free reference would hold: all of every transaction with a durable
  COMMIT, nothing of any other (`CrashTheorems`). The engine itself is a class (`Engine.dfy`) whose methods are
  proved to take only steps of that system.
- **One rollback loses committed bytes.** A statement rollback drops the frames of all pages the transaction asked
  to write, also of those it never changed. If such a frame held the only copy of committed bytes, readers see the
  old page from then on. `RollbackLoss` gives such a run. `RecoveryEngine.Engine.RollbackStatement` gives the exact
  condition, on the state before the call: it holds if and only if the pages only meant to be written read as
  published when the rollback is over, and if and only if the invariant is back. Runs in the theorems start
  rollbacks only under that condition.
- **Owned rollback.** One pass of local checks accepts exactly the legal histories, and legality implies the global
  facts: undo runs newest first and exactly once, cleanup accounts for every reservation once.
- **Log storage.** Buffer and segments together are one contiguous log under append, drain, rotation, truncation,
  reclamation and crash; reclamation never takes what recovery will read.
- **Paged B+ tree.** Insert and erase refine a map update through every split, borrow, merge and root collapse,
  and keep order, occupancy, equal depth, separators, the leaf chain and the pages: each page that leaves the tree
  goes to the free list exactly once, and no page of another structure is written.
- **Slotted page.** The bytes of a page, rewritten in place, refine a map from slots to tuples.
- **Buffer pool, access gate, SQL.** The pool is invisible to readers and evicts the LRU-K choice; the gate keeps
  writers alone in every interleaving; index lookup selects the rows a heap scan would; an UPDATE that passes its
  key check never collides on the way.

How the files fit together:

| files | content |
|---|---|
| `PageDelta`, `PageEncoding` | byte-range deltas, the touched-offset mask, choice of encoding |
| `WalLog`, `LogTheory` | what a log means: transaction table, page histories, compensation |
| `CrashModel`, `CrashInvariant`, `CrashLemmas`, `CrashSteps`, `CrashWriteSteps`, `CrashPrepare`, `CrashCheckpoint`, `CrashRollback`, `CrashRecovery` | the step system and why each step keeps the invariant |
| `CrashRuns`, `CrashTheorems`, `RollbackLoss` | whole runs |
| `Analysis`, `UndoProtocol`, `EngineSteps`, `EngineLive`, `Engine` | the engine as a class: analysis, REDO, UNDO, commit, rollback, checkpoint |
| `OwnedHistory`, `OwnedRollback` | legal owned-rollback histories and the analyzer |
| `LogCells`, `SegmentChain`, `SegmentedWal`, `LogManager`, `LogSurprises` | log storage |
| `TreeTheory`, `TreeOrder`, `TreeRuns`, `TreeErase`, `TreeScan`, `TreeSteps`, `PagedTree` | the B+ tree and its page allocator |
| `SlottedPage` | the heap page |
| `LruK`, `BufferPool`, `AccessGate` | page cache and reader/writer gate |
| `Options` | a value that may be missing |
| `SqlValues`, `SqlExpressions`, `Table`, `SqlStatements` | literals, WHERE, rows and index, UPDATE and DELETE |

`dafny verify dfyconfig.toml` checks the whole project. Proofs say `hide F;` where a definition would only slow
them down.

Where the code does something its own documentation or naming does not suggest, the model follows the code:

- A rollback can hide committed bytes from readers (above).
- `reclaimSegmentsBefore` rebuilds the set of known LSNs from the segments alone and so forgets buffered records
  (`LogManager.Manager.ReclaimSegmentsBefore`).
- With records in the buffer, a scan that starts inside the newest buffered record is not refused
  (`LogManager.Manager.ScanFrom`).
- A record larger than a segment but not larger than the buffer is accepted and can never be drained
  (`LogManager.Manager.Append`, `WriteBuffer`, `SmallBufferDrains`). `LogSurprises` builds a store for each of
  these three.
- Rotating a store whose tail is torn leaves files no chain of segments has, so the store cannot be opened again
  (`SegmentedWal.Storage.Rotate`).
- A crash after a segment file is created and before its header is written leaves a store that cannot be opened
  (`SegmentedWal.CrashAndReopen`).
- A negated zero literal is refused for UINT32 columns although it denotes zero (`SqlValues.ConvertExact`).

## Model

| member | source | states |
|---|---|---|
| PageDelta.ComputePageDelta | src/recovery_log.cpp:204-241 | The ranges cover exactly the offsets that differ or that the mask demands, are disjoint, apart and non-empty, and quote both images; a mask of the wrong size is refused; a real change always yields ranges the log accepts |
| PageDelta.ApplyPageDeltaAfter | src/recovery_log.cpp:448-456 | In place on the page: succeeds exactly on acceptable ranges, then the page is the spliced one, else untouched |
| PageDelta.ApplyPageDeltaBefore | src/recovery_log.cpp:458-466 | The same for the before bytes |
| PageDelta.DeltaChain | src/recovery.cpp:1534-1592 | Within one transaction the k-th delta, built with the accumulated touched-offset mask, turns the original and every earlier image into the k-th image, and its before bytes turn any of the first k images back into the original |
| PageEncoding.RangesUnique | src/recovery_log.cpp:210-241 | Two range lists that encode the same change under the same mask are equal: the delta is determined by what it must cover |
| PageEncoding.ChooseChange | src/recovery_log.cpp:506-523 | Each mode gives the encoding it names; the adaptive mode gives one no larger than any other valid encoding of the change |
| LogTheory.LosersDisjoint | src/recovery.cpp:653-668 | Two unfinished transactions of a well-formed log never updated the same page |
| LogTheory.UndoRestores | src/recovery.cpp:51-81 | Compensating the next update of a loser gives the committed image from whatever image the page may hold |
| LogTheory.ClrsDescend | src/recovery.cpp:111-233 | The compensations of one transaction go down its updates, never repeating one |
| LogTheory.ExactlyOneClr | src/recovery.cpp:175-241 | Every update of an aborted transaction has exactly one compensation record in the log, however often undo was interrupted |
| LogTheory.Settled | src/recovery.cpp:1021-1050 | A page image exact at its own LSN stays an image the page may hold as long as no committed update or compensation of the page follows: the reason the PageLSN test of REDO is sound |
| LogTheory.FitEverywhere | src/recovery.cpp:1021-1050 | A settled page may be replayed from any earlier position and ends the same: the reason a page with an unknown PageLSN can be redone |
| CrashCheckpoint.CheckpointSound | src/checkpoint_manager.cpp:75-117 | The dirty page table and transaction table a fuzzy checkpoint records describe the log they are appended to |
| CrashCheckpoint.CheckpointImage | src/buffer_pool_manager.cpp:486-502 | A page outside the recorded table is complete on disk; one inside it is exact where the table says REDO starts |
| CrashRecovery.IdsRestored | src/recovery.cpp:749-754 | The restored transaction counter lies above every id in the log, also above those before the scan start |
| CrashRecovery.ScanReaches | src/recovery.cpp:402-418 | The scan starts no later than where any page needs REDO |
| CrashRecovery.RedoCatches | src/recovery.cpp:940-951 | After a REDO position, no needed record up to it is missing on the page, although records below the table entry or the PageLSN were skipped |
| CrashWriteSteps.CommitPublishes | src/recovery.cpp:1700-1725 | A commit publishes exactly the bytes the transaction left, on exactly its pages |
| CrashRuns.StepKeeps | src/recovery.cpp:83-241 | Each of the 21 kinds of step keeps the invariant |
| CrashRuns.RunInvariant | src/recovery.cpp:347-1139 | Every state of every run with crashes anywhere satisfies the invariant of log, disk, crash images, frames, contexts and retention |
| CrashTheorems.OnlyCommitsPublish | src/recovery.cpp:1700-1725 | No step but a commit changes the published database: no write, eviction, checkpoint, rollback, crash or recovery step |
| CrashTheorems.RunMatchesReference | README.md:181-186 | At every moment of every run the published database is what a crash-free reference that only executes the commits would hold |
| CrashTheorems.ReadersMatchReference | README.md:181-186 | A reader of a page no open transaction claims gets the page of that reference |
| CrashTheorems.RestartRestores | src/recovery.cpp:347-1139 | When a restart finishes, whatever crashed and interrupted it, every page reads as the reference says |
| CrashTheorems.RestartsAgree | src/recovery.cpp:1088-1104 | Two restarts from the same crash, with any order of losers and any number of further crashes, end with the same pages |
| CrashTheorems.ForcedForever | src/log_manager.cpp:263-280 | A forced record is part of every later log of the run |
| CrashTheorems.CrashBetween | src/recovery.cpp:1700-1725 | A crash between the append and the force of COMMIT, ABORT or a checkpoint END leaves exactly what a crash before the step or after it leaves, so taking append and force as one step hides no crash |
| CrashTheorems.WriteAhead | src/buffer_pool_manager.cpp:60-143 | No page image a crash may leave on disk is ahead of the forced log, and each names a record of its own page; this covers eviction, flush, flush of all pages, compensation and the header page |
| CrashTheorems.RecoveryCanStart | src/checkpoint_manager.cpp:134-158 | After any crash a scan start exists at or above the oldest retained record: reclamation never takes what recovery reads |
| CrashTheorems.UndoCanGoOn | src/recovery.cpp:111-233 | Restart undo of an unfinished transaction always has its next record in the retained log, or is done |
| CrashTheorems.RollbackCanGoOn | src/recovery.cpp:1727-1800 | The same for a live rollback |
| CrashTheorems.RollbackExact | src/recovery.cpp:1727-1800 | Pages the transaction only asked to write read as published right after their frames are dropped if and only if no such frame differs from the disk; RollbackStatement carries this to the end of the call |
| RollbackLoss.RollbackLosesCommittedPage | src/recovery.cpp:1727-1800 | A concrete run after which the log says a page is committed as ones and readers get zeros; the condition above was false |
| Analysis.FindScanStart | src/recovery.cpp:402-418 | The scan start is the least of the checkpoint BEGIN, its recovery LSNs and its attached BEGINs, and lies above every floor that retains them |
| Analysis.Analyze | src/recovery.cpp:519-745 | On any log the engine wrote the pass reports no corruption, neither in the chains nor in who holds which page, and the two tables it rebuilds from the scanned part are what the whole log says |
| Analysis.NoConflict | src/recovery.cpp:665-668 | The check for conflicting active histories of a page never fires |
| Analysis.LosersExact | src/recovery.cpp:756-772 | The losers found are exactly the unfinished transactions of the whole log, with their true entries |
| Analysis.TableFilters | src/recovery.cpp:940-951 | The rebuilt dirty page table filters out exactly the records below the page's REDO bound |
| EngineSteps.RedoFilters | src/recovery.cpp:757-775 | The redo list and its two filters select exactly the records REDO is specified to apply |
| RecoveryEngine.Engine.Compensate | src/recovery.cpp:175-233 | Append, force, page write and sync, in this order, each a step of its own |
| RecoveryEngine.Engine.UndoTransactions | src/recovery.cpp:83-241 | The queue loop always undoes the greatest pending LSN, terminates, and aborts every loser; it takes only steps of the undo protocol |
| RecoveryEngine.Engine.RedoPass | src/recovery.cpp:868-1083 | REDO takes one step per log position, with the source's filters, and ends with the invariant |
| RecoveryEngine.Engine.AnalysisPass | src/recovery.cpp:402-754 | Analysis starts at a retained position and delivers exact tables |
| RecoveryEngine.Engine.Recover | src/recovery.cpp:347-1139 | Restart from any state the invariant allows never fails and ends with every page as the committed transactions left it |
| RecoveryEngine.Engine.WriteBytes | src/recovery.cpp:1368-1403 | The first write intent keeps the original; bytes change on that page alone |
| RecoveryEngine.Engine.ModifyPage | src/recovery.cpp:1368-1403 | A page is modified exactly when no other open transaction claims it; otherwise no page reads differently |
| RecoveryEngine.Engine.PreparePage | src/recovery.cpp:1520-1671 | Preparation logs the change against the retained original if there is one, and stamps the frame with the newest record |
| RecoveryEngine.Engine.CommitStatement | src/recovery.cpp:1700-1725 | After commit the published database has the transaction's pages as it left them and all others unchanged |
| RecoveryEngine.Engine.RollbackStatement | src/recovery.cpp:1727-1800 | A rollback ends, publishes nothing and closes the transaction; the condition on the state before the call holds if and only if the pages it only meant to write read as published afterwards, and if and only if the invariant is back |
| RecoveryEngine.Engine.FlushPage | src/buffer_pool_manager.cpp:272-288 | False exactly for a page that is not resident; a clean page is left alone; afterwards the page is on disk as its frame holds it, with its PageLSN below the forced log |
| RecoveryEngine.Engine.PersistHeader | src/database_metadata_manager.cpp:17-32 | The header page is logged and the log forced before it is written, past the pool; refused exactly when another open transaction claims it; no other page reads differently |
| RecoveryEngine.Engine.FlushAll | src/buffer_pool_manager.cpp:290-321 | All dirty pages reach the disk although only the greatest page LSN is forced |
| RecoveryEngine.Engine.FuzzyCheckpoint | src/checkpoint_manager.cpp:75-158 | The checkpoint is published, changes nothing readers see, and the log below its floor is given up |
| OwnedHistory.PagesExclusive | src/owned_rollback_analysis.cpp:101-117 | Two transactions touch the same page only if the first ended in between |
| OwnedHistory.BeginsOnce | src/owned_rollback_analysis.cpp:79-89 | A transaction begins at most once |
| OwnedHistory.UndoneNewestFirst | src/owned_rollback_analysis.cpp:118-131 | At every moment the compensated updates are the newest ones, in reverse order |
| OwnedHistory.CleanupMeansUndone | src/owned_rollback_analysis.cpp:132-141 | Past cleanup BEGIN the compensations are exactly the updates of existing pages in reverse order, and the transaction never writes again |
| OwnedHistory.OwnedAbort | src/owned_rollback_analysis.cpp:155-181 | An owned ABORT implies exact compensation and exactly one progress record per reservation |
| OwnedHistory.ReservedOnce | src/owned_rollback_analysis.cpp:101-108 | Pages are reserved in ascending order, so never twice |
| OwnedHistory.ReclaimsBelong | src/owned_rollback_analysis.cpp:53-61 | A reclaim recorded while a transaction runs follows its intent at once and names a page that transaction reserved |
| OwnedHistory.CutLegal | src/owned_rollback_analysis.cpp:47-61 | Cutting a legal history anywhere leaves a legal one, so a crash never makes a log unacceptable |
| OwnedRollback.NextRequiredUndo | src/owned_rollback_analysis.cpp:34-45 | The walk finds the newest record at or below its start that undo must not pass over |
| OwnedRollback.WalkExact | src/owned_rollback_analysis.cpp:34-45 | That record is the newest uncompensated update, and BEGIN exactly when there is none |
| OwnedRollback.Analyze | src/owned_rollback_analysis.cpp:21-192 | A history is accepted if and only if every record is legal, and the table then describes every transaction exactly |
| LogCells.ParseFinds | src/segmented_wal.cpp:115-165 | A scan of whole records and a broken tail finds exactly them |
| LogCells.ReadBack | src/segmented_wal.cpp:577-595 | A record of the log is decoded from its own position and from nowhere else |
| LogCells.CutRun | src/segmented_wal.cpp:524-536 | Cutting a run of records at any byte leaves whole records and one broken one |
| SegmentChain.ChainFlat | src/segmented_wal.cpp:437-473 | The segments are one contiguous log: no gap, no overlap, no record across a boundary |
| SegmentChain.CutChain | src/segmented_wal.cpp:377-429 | Cutting the active segment anywhere leaves a chain that keeps every record wholly below the cut |
| SegmentedWal.Storage.AppendRecord | src/segmented_wal.cpp:489-511 | Succeeds exactly at the logical end, on a whole tail, for a record that fits a segment; then the flat log grew by it, else nothing changed |
| SegmentedWal.Storage.Rotate | src/segmented_wal.cpp:519-522 | Rotation keeps the flat log; some chain of segments has the resulting files, so that they can be opened, if and only if the tail was not torn |
| SegmentedWal.Storage.TruncateActiveTail | src/segmented_wal.cpp:524-536 | Only the broken record goes |
| SegmentedWal.Storage.ReadRecordAt | src/segmented_wal.cpp:577-595 | Returns exactly what was appended at that LSN, and nothing elsewhere |
| SegmentedWal.Storage.ScanFrom | src/segmented_wal.cpp:538-575 | Accepts exactly record boundaries of the retained part and returns that suffix of the flat log |
| SegmentedWal.Storage.ReclaimBefore | src/segmented_wal.cpp:625-657 | Drops whole segments, keeps the reserve, and keeps every record at or above the floor |
| SegmentedWal.Open | src/segmented_wal.cpp:357-429 | Succeeds if and only if the directory holds a chain, and then finds that chain |
| SegmentedWal.HeldOnce | src/segmented_wal.cpp:377-429 | A directory holds at most one log |
| SegmentedWal.CrashAndReopen | src/segmented_wal.cpp:377-473 | A crash cuts the active segment anywhere past the synced bytes, or comes while the next segment file is being made: opening succeeds if and only if that file is absent, or has its header behind a whole segment; then the log found is a prefix with every durable record in it |
| LogManager.Manager.Append | src/log_manager.cpp:214-255 | Returns the next LSN and extends the flat log by the record; says exactly when it fails, also with a buffer that cannot be drained, and what is then left |
| LogManager.Manager.WriteBuffer | src/log_manager.cpp:189-212 | Draining keeps the flat log and succeeds exactly when every buffered record fits a segment |
| LogManager.Manager.SmallBufferDrains | src/log_manager.cpp:189-212 | A buffer no larger than a segment can always be drained |
| LogManager.Manager.FlushUpTo | src/log_manager.cpp:263-280 | On success every record up to the target is stored and durable; it succeeds exactly for known or stored records that are durable or drainable |
| LogManager.Manager.Contiguous | src/log_manager.cpp:287-312 | Buffer and segments are one contiguous log from the oldest segment to the next LSN |
| LogManager.Manager.ScanAll | src/log_manager.cpp:287-316 | The scan returns that log |
| LogManager.Manager.ScanFrom | src/log_manager.cpp:318-341 | Returns the suffix from an accepted position, and says exactly which positions are accepted |
| LogManager.Manager.ReadRecordAt | src/log_manager.cpp:343-363 | The record at a position, in the buffer or in a segment, and nothing elsewhere |
| LogManager.Manager.ReclaimSegmentsBefore | src/log_manager.cpp:473-480 | Everything at or above the floor stays; all records are still known if and only if the buffer was empty |
| LogManager.RetentionFloor | src/checkpoint_manager.cpp:134-144 | The floor is the least of the checkpoint BEGIN, the dirty pages' recovery LSNs and the open BEGINs |
| LogManager.Manager.ReclaimAfterCheckpoint | src/checkpoint_manager.cpp:134-158 | After rotation and reclamation every record at or above any of those is still retained |
| LogSurprises.ReclaimForgets | src/log_manager.cpp:473-480 | A store on which reclamation makes the manager forget a buffered record, so that it can no longer be flushed |
| LogSurprises.ScanInside | src/log_manager.cpp:318-341 | A store on which a scan from inside the newest buffered record succeeds |
| LogSurprises.AcceptedForever | src/log_manager.cpp:214-255 | A store that accepts a record after which nothing can be forced |
| TreeTheory.LinkAfterOk | src/persistent_bplus_tree.cpp:560-577 | The link writes of a leaf split put the new page into the doubly linked chain and write no page but the two leaves and the next one |
| TreeTheory.UnlinkNextOk | src/persistent_bplus_tree.cpp:872-885 | The link writes of a leaf merge take one page out of the chain, likewise |
| TreeOrder.RouteSplits | src/persistent_bplus_tree.cpp:502-515 | Following the first separator above the key leaves only smaller keys left of the child and only larger ones right of it |
| TreeRuns.FreeDistinct | src/page_allocator.cpp:114-129 | A free list linked through its pages visits no page twice, so the cycle check never fires |
| TreeErase.InnerPairRebalanced | src/persistent_bplus_tree.cpp:760-793 | Two inner siblings that divide their children anew are well-shaped again and hold the same entries in the same order |
| TreeErase.InnerOneRebalanced | src/persistent_bplus_tree.cpp:795-823 | The same when one takes all children of both |
| TreeSteps.LeastEntries | src/persistent_bplus_tree.cpp:677-684 | A subtree of height h holds at least minimumLeafKeys times minimumInternalChildren to the h entries |
| TreeSteps.MinsAscend | src/persistent_bplus_tree.cpp:692-699 | Least keys of neighbouring subtrees increase, so rebuilt separators always pass their check |
| PagedTree.Index.EveryPageOnce | src/page_allocator.cpp:114-171 | In every valid index each data page is exactly once in the tree, on the free list or with another structure |
| PagedTree.Index.HeightBound | src/persistent_bplus_tree.cpp:167-185 | The number of entries grows by the occupancy factor with every level |
| PagedTree.Index.Allocate | src/page_allocator.cpp:135-153 | The head of the free list, zeroed and unlinked, else one new page |
| PagedTree.Index.FreePageIds | src/page_allocator.cpp:114-129 | The walk along the links yields the free pages in order and never reports a cycle |
| PagedTree.Index.Release | src/page_allocator.cpp:155-171 | The page becomes the head of the free list; refused exactly for a page that is no data page, pinned or already free |
| PagedTree.Index.AllocateForOther | src/page_allocator.cpp:135-153 | Another structure takes a page between two operations: the index stays valid, with the same entries |
| PagedTree.Index.ReleaseForOther | src/page_allocator.cpp:155-171 | And gives one back, unless it pins it |
| PagedTree.Index.SplitPages | src/persistent_bplus_tree.cpp:546-577 | The writes of splitLeaf; its corruption check never fires |
| PagedTree.Index.InsertLeaf | src/persistent_bplus_tree.cpp:619-638 | A leaf takes the entry, or splits into two well-shaped halves whose separator is the right half's least key |
| PagedTree.Index.SplitInner | src/persistent_bplus_tree.cpp:579-602 | An overfull inner node splits; the middle separator moves up |
| PagedTree.Index.InsertAt | src/persistent_bplus_tree.cpp:604-675 | Below any page: nothing changes if the key is there; else the subtree or its two halves hold the entry, are well-shaped, and no page outside was written except sibling links of the leaves beside |
| PagedTree.Index.RaiseRoot | src/persistent_bplus_tree.cpp:641-648 | A split root gets a new root above both halves |
| PagedTree.Index.Insert | src/persistent_bplus_tree.cpp:604-675 | Refused exactly for an invalid record id or a full entry count; else refines a map update; a key that is there changes nothing at all; pages come from the head of the free list, then from the end; the tree only gains pages; no foreign page is written |
| PagedTree.Index.SubtreeMinimum | src/persistent_bplus_tree.cpp:520-532 | The leftmost descent finds the least key of the subtree |
| PagedTree.Index.RebuildKeys | src/persistent_bplus_tree.cpp:686-701 | The separators are the least keys of all children but the first; the not-increasing check never fires |
| PagedTree.Index.MergePair | src/persistent_bplus_tree.cpp:872-914 | The left leaf takes all entries, the right page is unlinked and released once; the back-link check never fires |
| PagedTree.Index.RebalanceLeaf | src/persistent_bplus_tree.cpp:825-914 | Borrow left, borrow right, merge left, merge right, in this order; afterwards all children are well-shaped with the same entries |
| PagedTree.Index.RebalanceInner | src/persistent_bplus_tree.cpp:752-823 | The same for inner nodes |
| PagedTree.Index.FinishInner | src/persistent_bplus_tree.cpp:703-747 | The parent's separators are rebuilt; the node is written, or handed up when it lost a child too many |
| PagedTree.Index.EraseAt | src/persistent_bplus_tree.cpp:916-956 | Below any page: nothing changes if the key is not there; else exactly its entry goes and the subtree is well-shaped or handed up one child short |
| PagedTree.Index.EraseRootLeaf | src/persistent_bplus_tree.cpp:935-941 | A root leaf without entries is released and the tree is empty |
| PagedTree.Index.EraseRootInner | src/persistent_bplus_tree.cpp:733-741 | A root with a single child is released and gives way to it |
| PagedTree.Index.Erase | src/persistent_bplus_tree.cpp:916-956 | Refines a map removal; a miss changes nothing; the page count never changes; the pages put on the free list are exactly those that left the tree, each once; no foreign page is written |
| PagedTree.Index.FindLeaf | src/persistent_bplus_tree.cpp:492-518 | The leaf reached: all leaves before hold smaller keys, all behind larger ones |
| PagedTree.Index.Find | src/persistent_bplus_tree.cpp:958-974 | The record of the key in the map, if it has one |
| PagedTree.Index.RangeScan | src/persistent_bplus_tree.cpp:976-1017 | Exactly the entries of the interval in key order; its corruption checks never fire |
| PagedTree.Index.ScanAll | src/persistent_bplus_tree.cpp:1019-1049 | Exactly all entries in key order; its corruption checks never fire |
| TreeScan.BetweenIs | src/persistent_bplus_tree.cpp:976-1017 | What a range scan is specified to return: an entry is in it if and only if it is in the index and its key in the interval, and it is sorted |
| SlottedPage.SpaceAddsUp | src/slotted_page.cpp:380-388 | Header, tuples, free space and directory add up to the page |
| SlottedPage.OrderUnique | src/slotted_page.cpp:423-437 | Only the order of their offsets can pack the tuples |
| SlottedPage.CompactLayout | src/slotted_page.cpp:317-338 | After compaction the page is well-formed and every slot holds its tuple |
| SlottedPage.Validate | src/slotted_page.cpp:340-446 | Accepts a page if and only if its magic, version, header size, reserved bytes, PageLSN and links are legal and some order of its live slots packs the payload, with blank free slots, true counts and boundaries, and zeroed free space |
| SlottedPage.Initialize | src/slotted_page.cpp:30-70 | Refused, with nothing written, exactly for illegal ids or links; else a valid, empty page with those links and no PageLSN |
| SlottedPage.OpenPage | src/slotted_page.cpp:72-84 | A view of a page exists exactly if validate accepts it; every operation keeps the page one it accepts |
| SlottedPage.SlottedPage.SetNext | src/slotted_page.cpp:98-106 | Refused exactly for an illegal link; nothing but the link changes |
| SlottedPage.SlottedPage.SetPrevious | src/slotted_page.cpp:108-116 | The same for the other link |
| SlottedPage.SlottedPage.CanFit | src/slotted_page.cpp:138-151 | A tuple fits exactly if its bytes, and a slot unless a free one can be reused, fit the free space |
| SlottedPage.SlottedPage.Insert | src/slotted_page.cpp:158-200 | Succeeds exactly if the tuple fits, uses the first free slot, adds the tuple to the map and changes no other slot; the directory-full error never occurs; free space shrinks by exactly what was used |
| SlottedPage.SlottedPage.Get | src/slotted_page.cpp:202-211 | The tuple of a live slot, and the right error otherwise |
| SlottedPage.SlottedPage.TryUpdate | src/slotted_page.cpp:213-237 | Succeeds exactly if the tuple fits the free space plus the old tuple; then the map changes in that slot alone, else no byte changes |
| SlottedPage.SlottedPage.Erase | src/slotted_page.cpp:239-253 | Exactly that slot leaves the map, its bytes become free space, and no other slot changes its number or bytes |
| LruK.LastDecides | src/lru_k_replacer.cpp:10-20 | The last K accesses decide what the whole history decides |
| LruK.Replacer.RecordAccess | src/lru_k_replacer.cpp:60-74 | One more access in the history; candidates follow |
| LruK.Replacer.Victim | src/lru_k_replacer.cpp:85-88 | The victim is evictable and goes before every other evictable frame by the full access history |
| BufferPool.Pool.AvailableFrame | src/buffer_pool_manager.cpp:45-48 | The first free frame, else the LRU-K victim, which is unpinned; none exactly if every frame is pinned |
| BufferPool.Pool.InstallPage | src/buffer_pool_manager.cpp:145-185 | Frames, table, free queue and replacer stay consistent; only the installed page reads differently |
| BufferPool.Pool.FetchPage | src/buffer_pool_manager.cpp:187-229 | Fetching changes nothing readers see, pins the page, and says exactly when it fails |
| BufferPool.Pool.NewPage | src/buffer_pool_manager.cpp:243-270 | The database grows by one page of zeros |
| BufferPool.Pool.FlushPage | src/buffer_pool_manager.cpp:272-288 | Refused exactly for an absent page or a pinned dirty one; then the disk holds what readers see |
| BufferPool.Pool.FlushAll | src/buffer_pool_manager.cpp:290-321 | Afterwards the disk is what readers see; refused exactly if a dirty page is pinned |
| BufferPool.Pool.DiscardPage | src/buffer_pool_manager.cpp:351-366 | Readers see the disk again on that page alone |
| BufferPool.Pool.ReleasePin | src/buffer_pool_manager.cpp:378-390 | One pin less, nothing else |
| AccessGate.RunInvariant | src/database_access_gate.cpp:31-99 | In every state of every interleaving of enabled steps the counters equal the sum over the owners and no waiting thread owns anything |
| AccessGate.NeverBelowZero | src/database_access_gate.cpp:49-55 | In every run no counter is lowered from zero and no lease is given back that its owner does not hold |
| AccessGate.WritersAlone | src/database_access_gate.cpp:31-82 | A write lease is the only lease there is |
| AccessGate.ReadersBarred | src/database_access_gate.cpp:39-75 | While a writer waits no step adds a reader |
| AccessGate.WritersNotStarved | src/database_access_gate.cpp:39-75 | Over any stretch in which one writer stays in line the number of readers only falls |
| AccessGate.WaitersHoldNothing | src/database_access_gate.cpp:34-62 | No thread waits while it holds a lease |
| AccessGate.HolderNeverWaits | src/database_access_gate.cpp:34-48 | A request of a holder is refused or granted at once |
| AccessGate.SomeoneGetsIn | src/database_access_gate.cpp:56-75 | Once all leases are back, some waiting thread gets in when it wakes |
| AccessGate.ShutdownDrains | src/database_access_gate.cpp:56-104 | After shutdown nothing is granted and whoever waits leaves |
| SqlValues.ValidateValues | src/schema.cpp:120-146 | Accepts exactly the rows that fit the schema |
| SqlValues.AccumulateMagnitude | src/sql_semantics.cpp:24-41 | Reads digits without ever exceeding the bound, and succeeds exactly when the number is in range |
| SqlValues.ConvertExact | src/sql_semantics.cpp:93-172 | A literal is refused for a column exactly when no value of the column is what it says, or it is a negated integer for UINT32 |
| SqlValues.CompareIsNumeric | src/sql_executor.cpp:295-316 | Comparing integer literals as text is comparing the numbers, whatever their length |
| SqlExpressions.TruthTables | src/sql_semantics.cpp:64-91 | NOT, AND and OR are complement, minimum and maximum on false, unknown, true |
| SqlExpressions.BindPreservesMeaning | src/sql_executor.cpp:244-293 | Every accepted clause, with literals converted and early exits, means on every row what was written; no accepted clause compares different kinds |
| SqlExpressions.WhereMeans | src/sql_executor.cpp:341-386 | Short-circuit truth equals strict three-valued truth |
| SqlExpressions.CandidateNecessary | src/sql_executor.cpp:402-432 | Only the row with the candidate key can satisfy the clause |
| Table.Table.Insert | src/table.cpp:56-82 | Succeeds exactly for a fitting row with a new key; heap and index stay in one-to-one agreement |
| Table.Table.Erase | src/table.cpp:139-163 | Row and key go together |
| Table.Table.EraseByPrimaryKey | src/table.cpp:114-137 | Exactly the row with the key goes |
| Table.Table.Update | src/table.cpp:165-196 | In place, re-keyed or relocated: exactly that row is replaced, exactly when its new key is free |
| Table.Table.UpdateByPrimaryKey | src/table.cpp:198-274 | The same by key |
| SqlStatements.MatchingRows | src/sql_executor.cpp:434-464 | Index lookup with residual filter and heap scan select the same rows: exactly those the clause means, each once |
| SqlStatements.BindAssignments | src/sql_executor.cpp:675-697 | Succeeds exactly if every column exists, none is named twice and every literal converts; then the assignments say what was written |
| SqlStatements.PrevalidateKeys | src/sql_executor.cpp:699-734 | The check passes exactly if the new keys are distinct and each is unused or used by a row that is itself replaced |
| SqlStatements.PrevalidationExact | src/sql_executor.cpp:699-734 | That is the case if and only if the table after the whole statement has unique keys |
| SqlStatements.NoCollision | src/sql_executor.cpp:774-781 | In the middle of the row-by-row update no row, replaced or not, has the key the next row is about to take |
| SqlStatements.ApplyUpdates | src/sql_executor.cpp:774-781 | So all row updates succeed in turn |
| SqlStatements.ExecuteUpdate | src/sql_executor.cpp:736-784 | Refused with nothing changed exactly if it does not bind or two rows would share a key; else every selected row is assigned, every other is as it was, and the count is the number selected |
| SqlStatements.ExecuteDelete | src/sql_executor.cpp:786-800 | Refused exactly if the clause does not bind; else exactly the selected rows go and are counted |

## Left out

- CrashRuns.RunInvariant: runs start a rollback only under `RollbackKeepsPages`, because without it the code does lose committed bytes; the set of pages is fixed; LSNs are log positions, not byte offsets; a page is read and written whole; COMMIT, ABORT and checkpoint END are appended and forced in one step, which `CrashTheorems.CrashBetween` justifies.
- CrashRuns.StepKeeps: the same fixed set of pages and merged steps.
- RecoveryEngine.Engine.UndoTransactions: truncation or reclaiming of pages a loser appended is not modelled.
- RecoveryEngine.Engine.Recover: the same.
- RecoveryEngine.Engine.CommitStatement: appending and forcing COMMIT is one step, which `CrashTheorems.CrashBetween` justifies.
- Analysis.Analyze: the existence flag of an update (src/recovery.cpp:661-664) has no counterpart, since every page exists.
- LogManager.Manager.Append: calls after a drain that failed are not followed further; what that drain leaves is stated.
- SqlStatements.MatchingRows: the order of the rows is not stated; the heap's order belongs to the tuple store.
- PagedTree.Index.InsertAt: recursion over the tree instead of a path stack, so the checks that the recorded path still fits (src/persistent_bplus_tree.cpp:653-656, 755-758, 836-839) have no counterpart.
- AccessGate.RunInvariant: the mutex and condition variable are the steps of an interleaving system, not a class; time is not modelled.
- RecoveryEngine.Engine.RedoPass: visits log positions in ascending order instead of sorting a redo list.
- Pages allocated by a transaction, physical appends and truncation, reservations and reclaim records inside recovery (the owned-rollback automaton is modelled on its own), and reclaim lineage.
- Legacy WAL records without PageLSN, legacy WAL files and their migration, deferred opening, sharp checkpoints, checkpoint control slots.
- Record, page, checkpoint, schema and catalog codecs, checksums, file descriptors, directory sync: validity is a predicate, an I/O failure is a crash.
- `retireCheckpointCoveredDependencies`, and the format upgrade of the database header.
- LSN, transaction id and checkpoint id exhaustion.
- The in-memory B+ tree (src/bplus_tree.cpp), which keeps the same invariants with linked nodes.
- The tuple store, used only as a map from record ids to rows with new ids on insert.
- CREATE, INSERT and SELECT assembly, projection, identifier normalisation, lexer and parser, sessions and explicit transactions above the statement level.
- Server, client, wire protocol, command line, benchmarks, statistics.
