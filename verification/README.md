# Pebble's core algorithms in Dafny

A model of the algorithms at the heart of Pebble, an LSM key/value store, and proofs of what they promise. Each
fast, stateful form is shown to agree with a simple meaning.

- **The meaning of a store** (`InternalKeys`, `ReadPath`): a store is a stack of levels of point entries and range
  tombstones. `Read` and `Meaning` define, without any algorithm, what a key maps to at a snapshot.
- **Compaction changes no read** (`CompactionIter`, `StoreCompaction`, `FileCompaction`, `InuseRanges`, `DeleteHints`,
  `FlushSplit`): the compaction iterator, with Merge chains, range tombstones, elision and zeroed sequence numbers, and
  the code around it. `StoreCompaction.CompactStore` and `FileCompaction.CompactFiles` are the results for a store.
- **Reading is reading the map** (`MergingIterHeap`, `RangeDel`, `MergingIter`, `InternalIter`, `DbIterator`, `GetIter`,
  `ReadPath`): over every sequence of calls, in both directions, the merging iterator is a cursor over the live
  entries and the user-facing iterator a cursor over the live keys; what it shows and what Get returns is the meaning
  exactly when the merge operator does not look at its key.
- **The commit pipeline** (`CommitPipeline`, `CommitProgress`): a state machine whose steps are the atomic memory
  accesses of any number of goroutines, what holds in every state that any interleaving reaches, and that every call
  can return after boundedly many steps.
- **Blocks** (`BlockCodec`, `BlockIter`): the bytes that the writer produces, and the iterator over them as an index
  cursor.
- **Batches and memtables** (`Batches`, `FlushableBatch`, `MemTableSpace`): the record encoding, the two sorted views
  of a batch, and the reservation of arena space.
- **The level checker** (`LevelChecker`): what its answer about range tombstones says.

## How to read the model

User keys in the store model are reals, compared by `<`: every countable total order embeds in them, and they have no
successor that a proof could use. Blocks and batches work on bytes and take any comparison that is a total order.
The merge operator is any function of a key, or nil, and two values that is associative at each key. "Visible at s" is
`seqNum < s`, or a sequence number of an uncommitted batch. `LevelInvariant` is the invariant stated at
merging_iter.go:108-118.

Twin functions for the two directions of the merging iterator (`nextEntry` and `prevEntry`, and so on) are one method
with a `reverse` flag, as in the heap; the lines in which the twins differ are the branches on the flag.

The commit pipeline and the memtable's space are state machines. Their theorems are about every state that a run from
the initial state reaches, for any interleaving.

Where code and comments disagree the model follows the code:

- `snapshotIndex` compares with `>`, not "greater than or equal".
- A newly created `Iterator` acts as if it stood after the last key, and a newly created `blockIter` as if it stood
  before the first entry.
- `Iterator.findNextEntry` hands the merge operator the key that was saved last, not the key it has found; in Get that is
  nil. An operator that looks at its key then gives another value than on the way back or in a compaction
  (`DbIterator.FirstAndLastDisagree`; `DbIterator.ShowsMapExactly` and `ReadPath.GetExactly` say exactly when).
- `blockIter` over an empty block can return an entry that was never added (`BlockIter.EmptyBlockCounterexample`;
  `BlockIter.Run` says exactly when).
- `foreachDefragmentedTombstone` passes over fragments that start at the empty user key (`DeleteHints.FromEmptyKey`;
  `DeleteHints.Defragment` says exactly which are included). This loses hints, not data.
- `memTableEntrySize` wraps around in 32 bits (`Batches.SizeIsNeed` says exactly when the count is right), and so do
  `newNode` and `Arena.alloc` (`MemTableSpace.ArenaIsExact` says exactly when they take only what fits).
- A flushable batch shows log data and numbers the records after it differently than a memtable does
  (`FlushableBatch.SameView` says exactly when the two agree). `Apply` and `refreshMemTableSize` count log data in
  `memTableSize`, which `LogData` does not.
- `iterateAndCheckTombstones` can refuse a consistent store when two tombstones with one sequence number at different
  levels cover a common key (`LevelChecker.AcceptedInEveryOrder` says exactly when).
- `userKeyChangeSplitter` can carry a postponed split over into the next table; progress and user-key boundaries hold
  all the same (`FlushSplit.WriteFile`), and `FlushSplit.Flush` says exactly where files end then.

## Model

| member | source | states |
|---|---|---|
| CompactionIter.SnapshotIndex | compaction_iter.go:362-370 | the stripe of a sequence number: every snapshot before the index is at most the number and every one from it on is greater (the comment says "greater than or equal"; the code compares with `>`, and so does the model) |
| CompactionIter.StripeVisible | compaction_iter.go:59-99 | every read that must keep working sees all of a snapshot stripe or nothing of it |
| CompactionIter.DeletedInStripe | compaction_iter.go:273-277 | the fragmenter's answer at the snapshot that closes an entry's stripe is: a newer tombstone of the same stripe covers the entry |
| CompactionIter.DropDeleted | compaction_iter.go:273-277 | dropping a covered version together with the rest of its stripe changes no read, the levels below included |
| CompactionIter.DropElided | compaction_iter.go:283-287 | dropping an elided point tombstone of the bottom stripe together with the rest of the stripe changes no read |
| CompactionIter.EmitPoint | compaction_iter.go:290-311 | emitting a Set or Delete, with its sequence number or a permitted zero, and skipping the rest of its stripe changes no read |
| CompactionIter.FoldMerge | compaction_iter.go:489-505 | folding one more undeleted operand of the stripe into a Merge chain changes no read, by associativity |
| CompactionIter.EmitMerge | compaction_iter.go:452-455 | a Merge chain that ran to the end of its stripe, or to a range tombstone, may be emitted as a Merge |
| CompactionIter.EmitMergeSet | compaction_iter.go:457-498 | a Merge chain that ends at a Delete, a Set or a deleted version may be emitted as a Set that shadows the rest of the stripe and the levels below |
| CompactionIter.KeptCovers | compaction_iter.go:614-636 | outside its own stripe an entry is covered by the thinned-out tombstones just when it was covered by all of them |
| CompactionIter.ZeroCovers | compaction_iter.go:642-655 | an entry whose sequence number is zeroed stays visible and covered as before at every read that must keep working |
| CompactionIter.TidyStripe | compaction_iter.go:273-311 | an entry that shadows the rest of its stripe is the only one of its key and stripe that is emitted |
| CompactionIter.TidyTail | compaction_iter.go:452-455 | a Merge that stays a Merge is followed by another version in its stripe only across a range tombstone |
| CompactionIter.Iterator.constructor | compaction_iter.go:183-220 | a new iterator has emitted nothing and has all of the input to process |
| CompactionIter.Iterator.NextInStripe | compaction_iter.go:391-442 | one step; NewStripe exactly at the end, at another user key or in another stripe, and NonSkippable exactly at a range tombstone of the same stripe |
| CompactionIter.Iterator.SkipInStripe | compaction_iter.go:373-389 | moves past the point entries of the stripe; what is left is the input without them, range tombstones kept |
| CompactionIter.Iterator.MergeNext | compaction_iter.go:444-512 | folds the chain: the entries consumed read like one Merge with the folded value, and the kind becomes Set exactly where the chain ended inside the stripe |
| CompactionIter.Iterator.Next | compaction_iter.go:222-358 | emits one entry or reaches the end, makes progress, and keeps: emitted entries on top of pending input read like the whole input at every relevant snapshot, in order, each derived from an input entry |
| CompactionIter.Compact | compaction_iter.go:222-512 | for every key, at every listed snapshot and at every point newer than the input, output over the levels below reads exactly as input over them; point entries of the output are strictly ordered with at most one per key and sequence number, so a zeroed one is the last of its key; within a stripe only a Merge is followed by another version of its key, and only across a range tombstone; a Delete that is left is one of the input and cannot be elided; where zeroing is allowed, an entry of the bottom stripe keeps its sequence number exactly if it is a Delete or a Merge that a range tombstone of its key and stripe cut short; every other sequence number is that of a point entry of the input; every range tombstone is passed on, in order |
| CompactionIter.KnowsEnough | compaction.go:2383-2384 | the tombstones whose markers have been returned so far, which are all that the fragmenter holds, decide whether an entry is deleted just as all tombstones of the input would |
| CompactionIter.Iterator.Absorb | compaction_iter.go:465-505 | one more version of the stripe is folded into the chain, for the chain's own key, or ends it as a Delete, a Set or a deleted version |
| CompactionIter.EmitRangeDelChunk | compaction_iter.go:614-636 | keeps exactly the newest fragment of every stripe, less an elided bottom stripe, newest first |
| CompactionIter.EmitRangeDels | compaction_iter.go:597-636 | over all chunks, the kept tombstones cover every key as well as the dropped ones did in each stripe, stay fragmented, and are of each chunk exactly the newest fragments of its stripes |
| StoreCompaction.CompactLevels | compaction.go:1963-1976 | replacing the input levels of a store by the compacted level keeps the level invariant and the meaning of the whole stack, levels above and below included, for every key at every relevant snapshot; zero is given only to last versions; nothing that could be collapsed, elided or zeroed is left in the level |
| StoreCompaction.CompactStore | compaction_iter.go:597-655 | the same with the range tombstones of the inputs re-fragmented and thinned out, to the newest of each stripe, by the compaction itself |
| FileCompaction.CompactFiles | compaction.go:2445-2456 | the same when only some files of two levels are compacted: with the output in their place in the lower level, beside the files that stay, the store keeps the level invariant and its meaning, and the output holds nothing more to collapse, elide, zero or thin out |
| FileCompaction.PutAside | compaction_picker.go:191-214 | what setupInputs picks, a clean cut of the upper level and every file of the lower level that it overlaps, can be compacted as whole levels would be: the files that stay change no read wherever they lie in the stack |
| FileCompaction.SwapMeaning | merging_iter.go:108-118 | two groups of files without a key in common mean the same in either order |
| StoreCompaction.ElisionIsSound | compaction.go:861-924 | what the in-use ranges make elideTombstone, elideRangeTombstone and allowZeroSeqNum answer is all that the two results above assume of them |
| StoreCompaction.SameMeaning | compaction_iter.go:222-512 | equal reads of output and input over the levels below give equal meanings of the whole stack |
| StoreCompaction.InvariantAfter | merging_iter.go:108-118 | the level invariant holds with the output in place of the inputs |
| InuseRanges.MergeInPlace | compaction.go:779-791 | merging in the array that holds the ranges leaves separated ranges that use exactly the same keys |
| InuseRanges.SameTouches | compaction.go:749-792 | ranges with the same union are touched by the same queries |
| InuseRanges.Elision.constructor | compaction.go:749-792 | before the first query the cursor has passed nothing |
| InuseRanges.Elision.ElideTombstone | compaction.go:874-889 | for keys in order, the moving cursor answers true exactly when no original file range contains the key (never while flushing) |
| InuseRanges.Elision.ElideRangeTombstone | compaction.go:895-924 | the two binary searches answer true exactly when no original file range touches the query (never while flushing or disabled) |
| DeleteHints.Defragment | table_stats.go:423-488 | every span is backed: each of its points is covered by a fragment with a sequence number inside the span's bounds, and both bounds are sequence numbers of its fragments; it starts where a fragment does; a fragment is included in some span if and only if it starts after the empty user key; no two spans could be joined |
| DeleteHints.FromEmptyKey | table_stats.go:438-446 | a fragment that starts at the empty user key, alone, gives no span at all |
| DeleteHints.DeletedIsCovered | compaction.go:1648-1668 | for every entry of a file that canDelete accepts, whoever sees the entry also sees a newer tombstone that covers it |
| DeleteHints.CanDeleteExactly | compaction.go:1648-1668 | canDelete accepts a file if and only if it is no older than the file that the hint came from and, whatever tombstones back the hint and whatever entries the file's bounds admit, none of them is seen by a later read without a newer tombstone that covers it |
| DeleteHints.RefusedIsNeeded | compaction.go:1648-1668 | for every such file that is refused: tombstones that back the hint, an entry that the file may hold and a read that must still find it |
| DeleteHints.DropKeepsReads | compaction.go:1611-1668 | so dropping the file changes no read of any key |
| FlushSplit.FindGrandparentLimit | compaction.go:811-824 | the end of the first grandparent, after the start key, with which a table would overlap too much; none exactly if there is no such file |
| FlushSplit.GrandparentLimitUnique | compaction.go:811-824 | that description determines the limit |
| FlushSplit.FindL0Limit | compaction.go:830-841 | the first flush split key after the start key |
| FlushSplit.Splitters.OnNewOutput | compaction.go:303-315 | both limits are set for the first key of the table and lie after it |
| FlushSplit.Splitters.SizeSplits | compaction.go:331-345 | a split that the size calls for happens exactly at the next user key |
| FlushSplit.Splitters.ShouldSplitBefore | compaction.go:288-301 | splits exactly for a postponed size split at a new user key or for a key past a limit |
| FlushSplit.WriteFile | compaction.go:2340-2396 | writes at least one entry and ends at the first change of user key at which a split is due, and not before; splitOnNextUserKey survives exactly when the table became full with its last entry and a limit lay before the next key |
| FlushSplit.Flush | compaction.go:2340-2396 | the files concatenate to the input, no user key is in two of them, and each respects the size, the flush split keys and the grandparent overlap; each ends where it has to and not before: when it is full, a limit lies before the next key, or the file before it left a split postponed |
| FlushSplit.CutUnique | compaction.go:2340-2396 | the input and that description of where files end determine the files |
| FlushSplit.CutFits | compaction.go:331-345 | a file that did not have to end earlier respects the size, the flush split keys and the grandparent overlap, and holds only one user key if a split was postponed to it |
| DbIterator.Iterator.constructor | iterator.go:67-102 | a new iterator behaves as one that stands after the last key, with the nil key saved |
| DbIterator.Iterator.NextUserKey | iterator.go:168-187 | moves past all versions of the current key although it stops early at a zero sequence number |
| DbIterator.Iterator.PrevUserKey | iterator.go:357-376 | moves back past all versions of the current key |
| DbIterator.Iterator.FindNextEntry | iterator.go:114-166 | the least live key that the bound admits, or the end; the value is what the versions add up to when the operator is handed the key saved last, which is the last deleted key passed or the one saved before; and the key that is left saved |
| DbIterator.Iterator.MergeNext | iterator.go:148-156 | mergeNext (378-422) with the operator made for the key saved before: folding newest to oldest gives what the versions add up to for that key, and leaves the wrapped iterator on the key or after it as `pos` says |
| DbIterator.Iterator.FindPrevEntry | iterator.go:263-355 | the greatest live key that the bound admits, folding oldest to newest for the right key; and the key that is left saved, also when nothing is found |
| DbIterator.Iterator.SeekGE | iterator.go:427-441 | SeekGE of the specified reader: cursor, saved key and what is shown |
| DbIterator.Iterator.SeekLT | iterator.go:574-588 | SeekLT of the specified reader |
| DbIterator.Iterator.First | iterator.go:592-604 | First of the specified reader |
| DbIterator.Iterator.Last | iterator.go:608-620 | Last of the specified reader |
| DbIterator.Iterator.Next | iterator.go:624-671 | Next of the specified reader, from all four positions; the error "iter is not at prev" is not reached |
| DbIterator.Iterator.Prev | iterator.go:675-719 | Prev of the specified reader, from all four positions |
| DbIterator.Iterator.Run | iterator.go:427-719 | every sequence of First, Last, SeekGE, SeekLT, Next and Prev, over any wrapped iterator that is a cursor over its entries, shows call by call what the specified reader shows, stale keys included |
| DbIterator.RunMoves | iterator.go:427-719 | whatever the operator does with its key, the reader goes from key to key like a two-way cursor over the live keys |
| DbIterator.KeyFreeShows | internal/base/merger.go:9-61 | with an operator that does not look at its key, every run shows a two-way cursor over the map from live keys to values |
| DbIterator.ShowsMapExactly | iterator.go:148-156 | every run over every list of entries shows that map if and only if the operator gives the same result at every key, nil included |
| DbIterator.FirstAndLast | iterator.go:148-156 | over two Merge versions of a key, First of a new iterator shows them merged for the nil key and Last merged for the key itself |
| DbIterator.FirstAndLastDisagree | iterator.go:148-156 | an associative operator and two Merge versions of one key on which First and Last show different values |
| DbIterator.StaleKey | iterator.go:148-156 | for any two keys, a SeekGE that finds the first makes a SeekGE that finds a Merge chain at the second merge it for the first key |
| DbIterator.EitherDirection | internal/base/merger.go:24-26 | a whole chain of operands, of any length, merges to the same value by MergeOlder from its newest operand and by MergeNewer from its oldest |
| DbIterator.LookupVersions | iterator.go:114-166 | the versions from the newest one of a key on decide what the key maps to |
| MergingIterHeap.RootIsFirst | merging_iter_heap.go:46-58 | nothing in a heap comes before its root, in either direction |
| MergingIterHeap.Heap.Init | merging_iter_heap.go:46-52 | a heap of the same items |
| MergingIterHeap.Heap.Fix | merging_iter_heap.go:54-58 | restores the heap, same items, after one was replaced |
| MergingIterHeap.Heap.Pop | merging_iter_heap.go:60-67 | removes the root and leaves a heap of the others |
| MergingIterHeap.Heap.Up | merging_iter_heap.go:69-78 | restores the heap when only one item may belong higher |
| MergingIterHeap.Heap.Down | merging_iter_heap.go:80-98 | restores the order below; false exactly when nothing moved |
| RangeDel.SeekGE | internal/rangedel/seek.go:15-75 | the newest visible version of the first visible fragment that ends after the key |
| RangeDel.SeekLE | internal/rangedel/seek.go:83-245 | the newest visible version of the last visible fragment that starts by the key, through all five cases |
| RangeDel.Get | internal/rangedel/get.go:15-86 | the newest visible fragment that contains the key |
| MergingIter.RootIsFirstAhead | merging_iter_heap.go:27-39 | the root of the heap comes before every other entry that is ahead in any level |
| MergingIter.CachedDecides | merging_iter.go:524-614 | the cached fragment alone decides whether its level covers the key |
| MergingIter.DeadBelow | merging_iter.go:108-118 | a tombstone deletes whatever it contains in lower levels |
| MergingIter.Iterator.InitHeap | merging_iter.go:268-340 | a heap of the entries the levels stand at, for the direction, with tombstones cached down to the root's level |
| MergingIter.Iterator.InitRangeDelIters | merging_iter.go:299-340 | brings the cached tombstones up to date for the levels down to the root's |
| MergingIter.Iterator.SeekLevels | merging_iter.go:780-854 | seekGE and its twin seekLT (lines 883-940): although tombstones move the key on from level to level, what a level skipped is dead |
| MergingIter.Iterator.StepEntry | merging_iter.go:494-519 | nextEntry and prevEntry (635-661): steps the root's level; everything ahead then comes after the old root |
| MergingIter.Iterator.IsEntryDeleted | merging_iter.go:524-614 | isNextEntryDeleted and isPrevEntryDeleted (666-758): false exactly when no visible newer tombstone of any level covers the root; otherwise moves past it and misses nothing |
| MergingIter.Iterator.SeekPast | merging_iter.go:571-605 | seeking to the end of a tombstone above the root skips only dead entries and passes the root |
| MergingIter.Iterator.FindEntry | merging_iter.go:616-632 | findNextEntry and findPrevEntry (761-777): terminates with the first live entry that is still to be returned, or with none if there is none |
| MergingIter.Iterator.FromTheEnd | merging_iter.go:955-979 | First and Last |
| MergingIter.Iterator.Seek | merging_iter.go:863-868 | SeekGE and SeekLT (945-950): the first live entry from the key on, in the direction |
| MergingIter.Iterator.SwitchHeap | merging_iter.go:342-491 | switchToMinHeap and switchToMaxHeap: every level ends up exactly past the current entry in the new direction |
| MergingIter.Iterator.Advance | merging_iter.go:981-1019 | Next and Prev: the neighbour of the entry returned last, whatever the direction was before |
| MergingIter.Scan | merging_iter.go:863-997 | a forward run returns, in internal-key order, exactly the visible point entries that no visible newer tombstone covers |
| MergingIter.Run | merging_iter.go:780-1019 | every sequence of First, Last, SeekGE, SeekLT, Next and Prev is a cursor over the sequence of live entries |
| InternalIter.Iterator.Call | internal/base/iterator.go:82-199 | every call of the wrapped iterator, whether it merges levels or lists the versions of one key, moves a cursor over its entries and returns what is there |
| GetIter.GetIterator.constructor | get_iter.go:19-41 | nothing has been read yet |
| GetIter.GetIterator.Next | get_iter.go:69-173 | the next live version of the key; none is skipped, and at the end none is left in any level |
| GetIter.GetIterator.InLevel | get_iter.go:75-114 | looks for a version in the level being read; a stop means that nothing live is left anywhere |
| GetIter.GetIterator.NextLevel | get_iter.go:115-172 | goes to the batch, the memtables, the L0 sublevels and the other levels in turn |
| GetIter.Versions | get_iter.go:69-173 | exactly the live versions of the key, newest first, although it stops at the first tombstone |
| InternalKeys.LessIsOrder | internal/base/internal.go:185-196 | the order of internal keys is strict, transitive and tells apart all entries that differ in key, sequence number or kind, newest first |
| ReadPath.StripMemTables | db.go:416-424 | drops exactly the newest memtables created at or after the snapshot, and nothing in them is visible |
| ReadPath.DropUnseen | db.go:416-424 | levels in which nothing is visible can be left out of a read |
| ReadPath.Get | db.go:380-442 | Get returns the value that all levels together mean by definition to an operator that is handed nil for the key, although it stops at the first tombstone |
| ReadPath.GetExactly | db.go:427-436 | every Get of a key over every store returns what the levels mean if and only if the operator does not tell that key from nil |
| ReadPath.GetsExactly | db.go:427-436 | Gets of all keys do if and only if the operator gives the same result at every key |
| ReadPath.ViewMeans | merging_iter.go:108-118 | a sorted view of exactly the live versions of a key reads it as the entries and tombstones of all levels mean it |
| ReadPath.ViewExists | merging_iter.go:108-118 | the live entries of every store can be put in one order |
| ReadPath.Iterate | iterator.go:427-719 | every run of a user iterator over a mergingIter, which changes direction with it, shows what the specified reader shows of the live entries, whose map is what all levels mean; so with an operator that does not look at its key it shows a cursor over the meaning |
| CommitPipeline.StepKeeps | commit.go:59-426 | every atomic step of every goroutine keeps the invariant and never lowers the visible sequence number |
| CommitPipeline.RunKeeps | commit.go:226-426 | every interleaving of any number of Commit and AllocateSeqNum calls keeps the invariant |
| CommitPipeline.RingIsFifo | commit.go:59-116 | the ring is a FIFO queue: adding to head appends the caller's batch, a successful CAS removes the oldest, which is applied, and nothing else changes it; no slot is overwritten and neither panic is reached |
| CommitPipeline.NeverFull | commit.go:226-245 | the semaphore keeps the ring from filling up |
| CommitPipeline.NoLostPublication | commit.go:384-426 | while the oldest pending batch is applied some goroutine will still make a dequeue attempt that finds it; if all publishers wait, it is unapplied |
| CommitPipeline.VisibleIsApplied | commit.go:384-426 | in every state reached the visible sequence number is at most the log sequence number, and every sequence number from 1 on that lies below it belongs to an applied batch |
| CommitPipeline.VisibleIsAtomic | commit.go:407-422 | batches become visible as a whole |
| CommitPipeline.ReadsAreAtomic | commit.go:407-422 | a read at the visible sequence number sees all records of a batch or none, and any only if the batch is applied |
| CommitPipeline.VisibleNeverDecreases | commit.go:411-422 | the visible sequence number never decreases |
| CommitPipeline.BatchesTile | commit.go:299-382 | batches tile the sequence numbers in queue order, with no overlap and no gap but a 0 that AllocateSeqNum passes over |
| CommitPipeline.WALInSeqNumOrder | commit.go:364-382 | the WAL holds the batches in the order of their sequence numbers |
| CommitPipeline.WALIsComplete | commit.go:347-382 | exactly Commit batches are in the WAL, and every one that is applied is |
| CommitPipeline.ReturnsVisible | commit.go:240-274 | a call returns only when its batch is visible |
| CommitPipeline.SpinWaitsForEarlier | commit.go:319-329 | AllocateSeqNum leaves its spin only when all records sequenced before are applied |
| CommitPipeline.NoDeadlock | commit.go:240-426 | while some call has not returned some goroutine can step |
| CommitProgress.StepLowers | commit.go:59-426 | every step that is not blocked lowers a measure: first the turns of the queue that are left, then the changes of the visible sequence number, then the ways to go of all calls, where a CAS that will fail counts as further to go |
| CommitProgress.StepsDoSomething | commit.go:226-426 | in every state reached a step that is not blocked changes the state |
| CommitProgress.SchedulesAreBounded | commit.go:226-426 | however the goroutines are scheduled, the number of steps that can be taken is bounded, retries of a failed CAS included; the spin and the two waits are steps only once what they wait for has happened |
| CommitProgress.StuckHaveReturned | commit.go:240-426 | when nobody can step any more, every call has returned with its batch applied and visible |
| CommitProgress.CallsReturn | commit.go:226-274 | from every state reached some schedule leads to one in which every call has returned, its batch applied and visible |
| BlockCodec.PutUvarint | sstable/block.go:70-80 | appends the varint, one byte at a time |
| BlockCodec.UvarintLen | sstable/block.go:15-22 | the number of bytes of the varint |
| BlockCodec.VarintRoundTrip | sstable/block.go:314-380 | the unrolled one-to-five-byte reader reads back what the loop wrote, for every 32-bit number |
| BlockCodec.VarintBytes | sstable/block.go:70-80 | a varint holds seven bits a byte, lowest first, with the top bit set on all bytes but the last, and is as short as it can be |
| BlockCodec.LEBytes | sstable/block.go:126-152 | byte i of a little-endian number is its i-th digit to base 256 |
| BlockCodec.KeyBytes | internal/base/internal.go:200-203 | an encoded internal key is the user key and then the trailer in eight bytes, lowest first |
| BlockCodec.EntryParts | sstable/block.go:66-106 | an entry is three varints (shared length, length of the rest of the key, length of the value), the rest of the key and the value |
| BlockCodec.KeyRoundTrip | sstable/block.go:465-478 | an internal key survives its encoding |
| BlockCodec.EntryRoundTrip | sstable/block.go:314-396 | each entry of a block decodes, at its offset, to its shared length, key suffix and value |
| BlockCodec.RestartsRoundTrip | sstable/block.go:126-152 | the restart array decodes to the offsets of the restart points |
| BlockCodec.BlockRoundTrip | sstable/block.go:258-281 | the trailer of a block leads back to its restart array and to its entries |
| BlockCodec.SharedPrefixLen | sstable/block.go:42-50 | the longest common prefix of two keys |
| BlockCodec.Writer.Add | sstable/block.go:113-124 | one more entry, with restart offsets increasing, restart points sharing nothing and spaced by the interval, and every other entry sharing all it can with the one before |
| BlockCodec.Writer.Store | sstable/block.go:36-111 | the same for the encoded key in `curKey` |
| BlockCodec.Writer.Finish | sstable/block.go:126-152 | the bytes of exactly the entries added; the writer is ready for the next block |
| BlockIter.CompareIsOrder | internal/base/internal.go:185-196 | on every total order of user keys InternalCompare is a total order, in which the trailer alone tells versions of a user key apart, newest first |
| BlockIter.Iterator.constructor | sstable/block.go:249-281 | a new iterator stands before the first entry |
| BlockIter.Iterator.ReadEntry | sstable/block.go:314-396 | the key is the shared prefix of the previous one and the suffix, and the next offset follows the value |
| BlockIter.Iterator.CacheEntryNow | sstable/block.go:485-500 | the cache gains the current entry |
| BlockIter.Iterator.SearchRestarts | sstable/block.go:512-584 | the binary search over restart points finds the first one that the key is not past |
| BlockIter.Iterator.SeekGE | sstable/block.go:504-604 | the index of the first entry at or after the key, as a linear scan would find it |
| BlockIter.Iterator.SeekLT | sstable/block.go:617-750 | the index of the last entry before the key |
| BlockIter.Iterator.First | sstable/block.go:754-763 | the first entry |
| BlockIter.Iterator.Last | sstable/block.go:766-784 | the last entry |
| BlockIter.Iterator.Next | sstable/block.go:788-821 | the next index, also when the direction is switched with a warm cache |
| BlockIter.Iterator.Prev | sstable/block.go:825-892 | the previous index, from the cache or from the restart point before; on an empty block a bogus entry exactly when `offset` is past 0 |
| BlockIter.Iterator.PrevRestart | sstable/block.go:854-892 | Prev with an empty cache |
| BlockIter.Run | sstable/block.go:504-892 | every sequence of calls on a block with entries equals an index cursor; on an empty block a call returns something if and only if it is a Prev and the calls before it have misread the block |
| BlockIter.EmptyBlockCounterexample | sstable/block.go:825-892 | on an empty block SeekGE, Next, Prev ends on an entry that was never added |
| BlockIter.Write | sstable/block.go:36-152 | the writer's bytes for a sequence of entries, and exactly how many they are |
| BlockIter.RoundTrip | sstable/block.go:36-396 | for every strictly increasing entry sequence and restart interval, if the block written is below 2 GiB, it reads back, from First by Next, as exactly the entries added |
| Batches.RecordSplits | batch.go:384-465 | a record is its kind, its key with the length before it and, for the kinds that have one, its value in the same form |
| Batches.RecordRoundTrip | batch.go:857-920 | a record that was encoded is decoded to the same kind, key and value |
| Batches.ReadAll | batch.go:891-920 | reading any bytes gives the records up to the first that cannot be read |
| Batches.DecodeEncoded | batch.go:857-920 | records that were encoded are what is read back, from any of them on |
| Batches.SizeIsNeed | mem_table.go:21-23 | the sizes counted add up to what the records can need if and only if no record is so large that its size wraps around in 32 bits |
| Batches.WrapsAround | mem_table.go:21-23 | a record 187 bytes short of 4 GiB is counted as needing nothing |
| Batches.Measure | batch.go:297-314 | re-reads any bytes for the size of the records they hold, log data included, and the range deletions among them |
| Batches.Batch.AddKeyValue | batch.go:384-431 | one more record with a value, counted; the size grows by exactly its entry size, and the sequence number in the header stays |
| Batches.Batch.AddKey | batch.go:433-465 | one more record without a value, counted; the size grows by exactly its entry size, and the sequence number in the header stays |
| Batches.Batch.LogData | batch.go:625-634 | one more record that neither the count nor the size takes in |
| Batches.Batch.Apply | batch.go:319-368 | the records of both batches, in order; the size grows by exactly that of the other's records, log data included |
| Batches.Batch.Repr | batch.go:644-650 | the bytes: the sequence number, zero unless it was set, and the count in the header, and the encoded records |
| Batches.Batch.SetRepr | batch.go:655-666 | takes over any bytes; refuses those shorter than a header; size and range deletions are those of the records that can be read, and bytes that encode as many records as they say make a valid batch |
| Batches.RoundTrip | batch.go:644-666 | the operations issued and the sequence number survive Repr and SetRepr |
| FlushableBatch.MemTable.Apply | mem_table.go:186-225 | exactly the point records and, apart, the range deletions are added, numbered without log data; the errors for an old sequence number and a wrong count |
| FlushableBatch.NewFlushableBatch | batch.go:1085-1188 | indexes of exactly the point records and the range deletions, in key order |
| FlushableBatch.FlushItemIs | batch.go:1383-1417 | without log data an indexed record shows the internal key and value that the memtable holds |
| FlushableBatch.ViewIs | batch.go:1171-1188 | the flushable view is in internal-key order and shows exactly the point records, and the one for the fragmenter exactly the range deletions |
| FlushableBatch.SameView | batch.go:1085-1188 | a batch reads the same, entry by entry, from a memtable it was applied to and from its flushable form if and only if it has no log data; then both give the same range deletions to their fragmenters |
| MemTableSpace.StepKeeps | mem_table.go:130-184 | every step of prepare, apply and writerUnref keeps: arena size plus what in-flight batches still need is within `reserved`, which is within capacity |
| MemTableSpace.BatchReserves | mem_table.go:175-184 | a batch reserves at least what its records can need if and only if no record is so large that its size wraps around |
| MemTableSpace.PreparedAlwaysFits | mem_table.go:175-255 | over every interleaving no allocation of a prepared batch fails, although availBytes resets the estimate; a memtable without references holds all of every batch |
| MemTableSpace.ReservesExactly | mem_table.go:175-255 | prepare accepts a batch if and only if it fits into the capacity less the arena size, when it found no other reference, or less what is reserved; what is available then shrinks by exactly the size of an accepted batch, and a refused one changes nothing else |
| MemTableSpace.PreparesWhatFits | mem_table.go:175-255 | from every state reached, a row of prepares takes exactly the batches that fit in turn, each less what those before it took |
| MemTableSpace.StepCloses | mem_table.go:138-152 | every step of apply, writerUnref and the rotation brings the flush exactly one step closer |
| MemTableSpace.BecomesFlushable | mem_table.go:138-152 | from every state reached in which no prepare is under way such steps lead to a memtable that is ready to be flushed and holds all of every batch |
| MemTableSpace.ArenaIsExact | internal/arenaskl/node.go:59-102 | in the 32-bit arithmetic of newNode and Arena.alloc (arena.go:70-88), the arena adds every node that fits and no other if and only if its capacity is below 4 GiB less 171 bytes |
| MemTableSpace.WrapsInto | internal/arenaskl/arena.go:70-88 | in a larger arena with no space left, an empty key with a value 187 bytes short of 4 GiB is added |
| MemTableSpace.StepIsArena | internal/arenaskl/arena.go:70-88 | below that capacity a step of the space model fails exactly when the arena does not take the node, and otherwise grows by what the arena allocates; a record whose size wraps around always fails |
| LevelChecker.Dedup | level_checker.go:514-523 | removes repeated keys in place: strictly sorted, same keys |
| LevelChecker.CollectAllUserKeys | level_checker.go:503-523 | exactly the endpoints of all tombstones, strictly sorted |
| LevelChecker.FragmentOne | level_checker.go:530-543 | fragments that make up the tombstone exactly, each running from one key to the next |
| LevelChecker.FragmentUsingUserKeys | level_checker.go:525-546 | the fragments cover exactly the same (key, sequence number, level) triples |
| LevelChecker.SameOrDisjoint | level_checker.go:525-546 | two fragments have the same range or no key in common |
| LevelChecker.Scan | level_checker.go:316-339 | accepts exactly if levels never go up among fragments with one start key |
| LevelChecker.CheckRangeTombstones | level_checker.go:424-428 | what is accepted is consistent: of two tombstones over a common key the newer is at no deeper a level; and if no two tombstones with one sequence number and different levels cover a common key, what is refused is not consistent |
| LevelChecker.AcceptedInEveryOrder | level_checker.go:304-339 | fragments are accepted in every order that sorting may leave ties in if and only if the tombstones are consistent and have no such ties |
| LevelChecker.TieCounterexample | level_checker.go:304-339 | a consistent tie that is refused in one order and accepted in the other |

## Left out

- File system, WAL and MANIFEST I/O, checksums, compression, caches, metrics, pacing, options, checkpoints and
  ingestion: I/O or glue.
- Compaction picking, scores and level sizing: heuristics.
- SingleDelete in compaction: its result is documented as undefined for overwritten keys. The user-facing iterator and
  Get treat it as a Delete, and so does the model.
- Sentinel keys, file bounds and truncated tombstones of `levelIter`: a level is one sorted run of entries and one
  list of fragments. Prefix iteration, bloom filters and the seek-using-next shortcut are left out with them.
- Iterator bounds inside the merging iterator. `DbIterator` takes entries that lie within the bounds.
- `rangedel.Fragmenter`: modelled by what it promises, the same coverage in sorted fragments. Range tombstones in
  `finishOutput` and `nonZeroSeqNumSplitter` depend on it and are left out.
- Error returns of `prepare` and `apply`, waiting for a WAL sync, `ratchetSeqNum`, the pool that batches come from and
  the wrap-around of the ring's 32-bit counters: calls have distinct identities, and counters are unbounded.
- `blockIter` with a global sequence number, reuse of an iterator without resetting its offsets, and blocks that the
  writer did not produce.
- Growth and aliasing of byte slices: buffers are values. A merge operator is taken to look at its key when it is
  called, not later.
- The gathering loop of `setupInuseKeyRanges` over the files of a version, and `checkDeleteCompactionHints`: they
  only select files.
- Gathering and truncating the tombstones of all files for the level checker: the model starts from the tombstones.
- Skiplists: a memtable's skiplist is the sorted sequence of what was inserted. Of a node only its allocation and the
  bounds of its key and value are modelled.
- Sorting and binary search by the Go library: modelled by insertion and by search loops with the same result.
- Batches.Batch.AddKeyValue: a batch is required to stay below 4 GiB, where the source panics.
- MemTableSpace.PreparedAlwaysFits: takes it that `memTableSize` is at least what the records need, which
  `MemTableSpace.BatchReserves` shows to hold exactly when no size wraps around.
- DbIterator.Iterator.SeekGE: without SeekPrefixGE.
- FileCompaction.CompactFiles: the files that stay are groups to the left and to the right of those compacted, in one
  upper and one lower level; for inputs from several sublevels `StoreCompaction.CompactStore` takes whole levels.
