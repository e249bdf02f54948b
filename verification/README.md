# Verification of EventQL's embedded storage core

EventQL ships three libraries whose correctness it depends on: the LMDB 0.9.15 storage
engine (`deps/3rdparty/liblmdb`), PCRE's DFA matcher (`deps/3rdparty/pcre`) and a SIMD
bit-packing library (`deps/3rdparty/libsimdcomp`). This project models their hard parts
in Dafny and proves what they are relied on for.

* **Multi-version protocol** (`Mvcc`, `MvccInvariant`, `MvccTheorems`, `MvccProgress`,
  `MvccLifecycle`). One writer at a time, lock-free readers that register by load, store and recheck, a reader-table scan
  that is not atomic, a cached oldest-reader id per process, copy-on-write pages,
  spilling, the free-page database, two meta pages written in turn, dying processes and
  crashes. A run is any sequence of single steps of any thread. The theorems are about
  every state of every run: what readers see and crashes leave, that readers get in and a
  writer can commit, and that what is committed is what was written.
* **Page-number lists** (`IdSort`, `IdList`, `PageAlloc`, `FreelistFill`, `NestedCommit`).
  The quicksort with its own stack, binary searches, backward merges in place, contiguous
  allocation, saving the list of reclaimed pages, and merging the page lists of a nested
  transaction into its parent's.
* **B+tree** (`PageSplit`, `BTree`, `BTreePut`, `BTreeDelete`, `BTreeDb`). The choice of the
  split point, recursive splits, moving and merging nodes after a deletion, root growth and
  collapse; every run of puts, deletions and lookups answers as a finite map does.
* **Page bytes and cursors** (`SlottedPage`, `CursorPath`, `Cursor`). Node insertion,
  removal and re-keying on the byte array of a page; cursor moves in place over a tree,
  including the shortcut that stays on the present leaf.
* **DFA matching** (`PcrePaths`, `PcreItems`, `PcreGroups`, `PcreDfa`). Paths through a compiled
  pattern, the loop over lists of states that finds their ends, and the meaning of patterns: the
  ends found are those of exactly the texts that the regular expression stands for.
* **Bit widths** (`SimdBits`) of delta-coded blocks. `Basics` holds what several parts share.

Conventions. LMDB is modelled for a database without duplicate keys and without a writable
memory map, with default sync flags, page size at least 4096 and keys of one common length of at most
511 bytes, so that a key is the number its bytes spell. A page's contents and a value's
bytes are numbers in the protocol and tree models, and sequences of bytes in `SlottedPage`.
Integers are unbounded except where width matters: node header fields, the 48-bit child
page number, the 32-bit words of `SimdBits`, the signed 32-bit indices of `IdSort`, the int
argument of `mdb_midl_alloc` and the unsigned 32-bit counts of `mdb_midl_need`. Everywhere else
the code counts the entries of a list of page numbers in an `unsigned`; `IdList.Search`,
`PageAlloc.FindRun`, `PageAlloc.AllocRun` and `PageAlloc.InsertRange` are what the code does on
lists of fewer than 2^32 entries.

Seven properties turned out not to hold of the code as such; each has a counterexample or
an exact condition:

* A split whose point is not searched for can fail with `MDB_PAGE_FULL`
  (`PageSplit.HalfSplitCanFail`, `BTreeDb.PutCanFail`); `BTreePut.PutTreeOk` says exactly when.
* The length that a nested commit computes without counting is right exactly if the
  parent's free slots and entries add up to the maximum (`NestedCommit.SingleAncestorLength`);
  freeing an overflow page breaks that (`NestedCommit.LengthWrongAfterOverflowFree`).
* A child page number survives storing exactly below 2^48 (`SlottedPage.PgnoRoundTrip`).
* The 32-bit loop test of `simdmaxbitsd1_length` is right exactly for lengths below 2^32 - 4
  (`SimdBits.GuardExact`); on longer inputs the loop reads past them (`SimdBits.SimdMaxBitsD1Length`).
* The sort adds the ends of a segment in an `int` to find its midpoint. The sum fits for every
  segment of the list exactly if the list has at most 1073741827 entries (`IdSort.MidpointExact`),
  and lists of a given length are all sorted exactly then: for every greater length there is a
  list on which the sum overflows (`IdSort.Sort`, `IdSort.SortWorst`).
* A list for the first record read from the free-page database is allocated with an `int` count,
  which is right exactly up to 2^31 - 3 entries (`PageAlloc.Alloc`).
* `mdb_midl_need` leaves enough room exactly if the IDs fit already or the number of slots does
  not wrap around 2^32 (`PageAlloc.Need`).

Where code and documentation differ, the model follows the code: `midl.h` says that
`mdb_midl_search` returns the first ID greater than or equal to the argument, while on
the descending list it returns the first one not greater.

## Model

| member | source | states |
|---|---|---|
| MvccTheorems.NoReuse | deps/3rdparty/liblmdb/mdb.c:2104-2274 | in every run, a page the allocator hands out is reachable from neither meta page, from no registered reader's snapshot and not from the transaction's own trees |
| MvccTheorems.ReaderSeesSnapshot | deps/3rdparty/liblmdb/mdb.c:2635-2764 | at every later state, a reader that passed the recheck finds every page of the snapshot it copied with its contents unchanged |
| MvccTheorems.LiveWasCommitted | deps/3rdparty/liblmdb/mdb.c:3718-3838 | each meta page and each reader's snapshot is the empty one or was written as a whole by one committing transaction |
| MvccTheorems.CrashRecovers | deps/3rdparty/liblmdb/mdb.c:3554-3577 | a crash at any state, with any unsynced pages lost or garbled, reopens on the published meta page or the one being written, and all its pages have their committed contents |
| MvccTheorems.Durable | deps/3rdparty/liblmdb/mdb.c:3718-3850 | in every run, crashes included, the published transaction id never goes back, the current meta page carries it, and as long as the id stays the published snapshot stays the same |
| MvccTheorems.EachPageOnce | deps/3rdparty/liblmdb/mdb.c:1807-1851 | at every step of a write transaction each page number of the file is in exactly one of its trees, free list, loose list, reclaimed list or unread records |
| MvccTheorems.AuditHolds | deps/3rdparty/liblmdb/mdb.c:1647-1701 | the page count that `mdb_audit` checks comes out right at every commit and for every committed snapshot |
| MvccProgress.RecheckReads | deps/3rdparty/liblmdb/mdb.c:2644-2708 | in every run, the recheck of a reader succeeds iff the id in its slot is still the published one, and then it reads the current meta page |
| MvccProgress.ReaderGetsIn | deps/3rdparty/liblmdb/mdb.c:2644-2708 | a reader that loads, stores and rechecks, whatever the others do meanwhile, gets in iff no other transaction was published in between, and then reads the snapshot that was current all that time |
| MvccProgress.IdleCanRead | deps/3rdparty/liblmdb/mdb.c:2644-2708 | the three steps are open to every reader with an idle slot and lead to the current meta page |
| MvccProgress.SlotLife | deps/3rdparty/liblmdb/mdb.c:2644-2708 | a claimed slot holds no id, a reader that ends leaves none, and a released slot is free for others |
| MvccProgress.ScanFinds | deps/3rdparty/liblmdb/mdb.c:2052-2068 | over every run, the id that a scan of the reader table ends with is the one before the writer's or was in some slot meanwhile, and no reader registered all the time has a smaller one |
| MvccProgress.RecordReclaimed | deps/3rdparty/liblmdb/mdb.c:2178-2237 | after a scan, the next record can be taken over if it is older than the last commit and than every id seen in the table |
| MvccProgress.TreeIsLastSaid | deps/3rdparty/liblmdb/mdb.c:2309-2466 | in every state of every run, each page of the transaction's trees has the contents that the transaction last gave it, by allocation or change, or else its base's; spilling and unspilling change nothing |
| MvccProgress.CommitsLastSaid | deps/3rdparty/liblmdb/mdb.c:3718-3838 | so a committed snapshot holds on every page what its transaction wrote there last, or what its base had |
| MvccLifecycle.ReaderCycle | deps/3rdparty/liblmdb/mdb.c:2644-2708 | a reader can always claim a free slot or a new one, read the current snapshot and leave; then the slot is free and nothing else has changed |
| MvccLifecycle.ReaderCanDie | deps/3rdparty/liblmdb/mdb.c:9750-9803 | a reader can die at any time, with its id left in its slot |
| MvccLifecycle.DeadReaderStays | deps/3rdparty/liblmdb/mdb.c:9750-9803 | as long as nobody takes over its slot, a dead reader's id stays in the table |
| MvccLifecycle.SpillAndBack | deps/3rdparty/liblmdb/mdb.c:1954-2045 | any dirty page of the tree can be spilled, which takes it off the dirty list, and unspilled, after which the transaction is as before |
| MvccLifecycle.LooseAndBack | deps/3rdparty/liblmdb/mdb.c:1808-1851 | a page the transaction dirtied can be given up and allocated again at once |
| MvccLifecycle.HeadAndBack | deps/3rdparty/liblmdb/mdb.c:5500-5544 | so can a run of dirty or spilled overflow pages, through the reclaimed list |
| MvccLifecycle.CopyOnWrite | deps/3rdparty/liblmdb/mdb.c:2367-2466 | any page of the tree can be copied to a new dirty page and freed, and the copy can be changed |
| MvccLifecycle.LooseNotWritten | deps/3rdparty/liblmdb/mdb.c:3224-3369 | over every run, pages the transaction gave up again are not written when it commits |
| MvccLifecycle.CanAlloc | deps/3rdparty/liblmdb/mdb.c:2104-2274 | pages can always be allocated from the end of the file, and from the loose and reclaimed lists what they hold; exactly the pages asked for are taken |
| MvccLifecycle.FlushIs | deps/3rdparty/liblmdb/mdb.c:3224-3369 | a written page shows its contents at once, and may be lost in a crash until the sync |
| MvccLifecycle.CanCommit | deps/3rdparty/liblmdb/mdb.c:3380-3850 | in every run, a running write transaction can go on to commit whatever it has done: its trees become the published snapshot and the pages it freed are listed under its id |
| MvccLifecycle.CrashAnytime | deps/3rdparty/liblmdb/mdb.c:3554-3577 | the machine can stop in any state; a meta page may be landing on the disk just then iff the transaction's pages are synced and it is still to be written; if it lands it is the current one afterwards, and before any meta page is written the old one stays current |
| MvccLifecycle.MetaPageWritten | deps/3rdparty/liblmdb/mdb.c:3718-3838 | transaction N writes meta page N % 2 and leaves the other one alone |
| MvccLifecycle.AbortUndoes | deps/3rdparty/liblmdb/mdb.c:2932-3027 | in every run, after an abort both meta pages and the published id are those the transaction began with, and the cache shows that snapshot |
| MvccLifecycle.BeginAndAbort | deps/3rdparty/liblmdb/mdb.c:2709-2764 | a transaction can begin whenever there is none, and be aborted until its meta page is written |
| MvccLifecycle.DeathAndRecovery | deps/3rdparty/liblmdb/mdb.c:9810-9841 | a writer can die at any time, and after recovery its transaction has happened iff its meta page was written |
| MvccInvariant.StepInv | deps/3rdparty/liblmdb/mdb.c:2635-3850 | every step of every thread keeps the invariant that the theorems rest on |
| MvccInvariant.RunInv | deps/3rdparty/liblmdb/mdb.c:2635-3850 | the invariant holds in every state of every run |
| MvccInvariant.LiveNotOlder | deps/3rdparty/liblmdb/mdb.c:2052-2068 | no snapshot in use, registered while the reader table was scanned or not, is older than the cached oldest-reader id allows |
| MvccInvariant.ReaderActions | deps/3rdparty/liblmdb/mdb.c:2644-2708 | claiming a slot, loading, storing, rechecking, ending and dying keep the invariant, in any interleaving with the writer |
| MvccInvariant.BeginStep | deps/3rdparty/liblmdb/mdb.c:2709-2764 | a new write transaction starts from the current meta page with nothing owned |
| MvccInvariant.ScanSteps | deps/3rdparty/liblmdb/mdb.c:2052-2068 | reading one reader slot at a time keeps the scan's minimum sound although slots change meanwhile |
| MvccInvariant.FetchStep | deps/3rdparty/liblmdb/mdb.c:2178-2237 | taking over a record older than the oldest reader makes no page owned that a snapshot still needs |
| MvccInvariant.AllocStep | deps/3rdparty/liblmdb/mdb.c:2104-2274 | allocation from the loose list, the reclaimed list or the end of the file keeps pages owned once and accounted for |
| MvccInvariant.FreeSteps | deps/3rdparty/liblmdb/mdb.c:5479-5552 | freeing a page to the free list, the loose list or the reclaimed list keeps every page in one place |
| MvccInvariant.EditSteps | deps/3rdparty/liblmdb/mdb.c:2366-2466 | changing an owned page or taking it back from the spill list touches no snapshot |
| MvccInvariant.WritePage | deps/3rdparty/liblmdb/mdb.c:3224-3369 | spilling or flushing an owned page to the file touches no snapshot |
| MvccInvariant.SaveConserves | deps/3rdparty/liblmdb/mdb.c:3030-3217 | after the free list is saved, the records list exactly the pages that the transaction's lists and unread records listed before |
| MvccInvariant.SaveStep | deps/3rdparty/liblmdb/mdb.c:3030-3217 | re-saving reclaimed pages under smaller keys lets no reader's page be taken over later |
| MvccInvariant.NewMetaOk | deps/3rdparty/liblmdb/mdb.c:3718-3838 | the meta page of a synced transaction is a sound base and leaves all snapshots in use intact |
| MvccInvariant.WriteMetaStep | deps/3rdparty/liblmdb/mdb.c:3718-3838 | writing the older meta page in place of the newer one keeps the invariant |
| MvccInvariant.PublishPicks | deps/3rdparty/liblmdb/mdb.c:3845-3850 | the newest meta page is the writer's once written, and the published one before |
| MvccInvariant.EndTxn | deps/3rdparty/liblmdb/mdb.c:2932-3000 | ending a transaction, and recovery after the writer's death, leave a base for the next one |
| MvccInvariant.ReopenInv | deps/3rdparty/liblmdb/mdb.c:3642-3643 | a file reopened after a crash, with only synced pages kept, satisfies the invariant |
| IdSort.Sort | deps/3rdparty/liblmdb/midl.c:216-278 | for up to 1073741827 entries ends with a descending permutation of the list; for longer ones it may come to a midpoint that overflows, and does on every lopsided list and on every list of the greatest length; always nothing else changed, every scan inside its segment and the stack inside its 64 slots |
| IdSort.SortWorst | deps/3rdparty/liblmdb/midl.c:216-278 | for every length there is a list, built here, that is sorted iff the length is at most 1073741827 |
| IdSort.WorstLopsided | deps/3rdparty/liblmdb/midl.c:244-275 | that list is cut nine entries from its end by the first partition |
| IdSort.MidpointExact | deps/3rdparty/liblmdb/midl.c:244 | the sum of the ends fits an int for every segment that can be partitioned iff the list has at most 1073741827 entries |
| IdSort.Partition | deps/3rdparty/liblmdb/midl.c:244-265 | the sentinel scans stay within the segment and split it around the median of three; where a lopsided list is split |
| IdSort.MedianOfThree | deps/3rdparty/liblmdb/midl.c:244-254 | where the midpoint fits an int, puts sentinels at both ends and the median beside the first, as a permutation; what becomes of a lopsided list |
| IdSort.InsertionSort | deps/3rdparty/liblmdb/midl.c:231-239 | sorts a short segment in place as a permutation |
| IdSort.DepthBound | deps/3rdparty/liblmdb/midl.c:266-275 | because the smaller part is worked on first, at most 28 segments are ever pending |
| IdSort.GoodSplit | deps/3rdparty/liblmdb/midl.c:255-275 | after a partition the list is sorted except within the pending segments |
| IdList.Search | deps/3rdparty/liblmdb/midl.c:33-66 | binary search on a descending list gives the place of the ID, and whether it is there |
| IdList.XMerge | deps/3rdparty/liblmdb/midl.c:200-212 | the backward merge in one buffer yields a descending permutation of both lists, even when the second lies in the tail of the same buffer |
| PageAlloc.EndpointTest | deps/3rdparty/liblmdb/mdb.c:2156-2165 | on a strictly descending list two entries differ by their distance iff everything between is contiguous |
| PageAlloc.FindRun | deps/3rdparty/liblmdb/mdb.c:2156-2165 | finds the lowest-numbered run of the wanted length, or reports that there is none |
| PageAlloc.TakeRun | deps/3rdparty/liblmdb/mdb.c:2257-2264 | compaction in place removes exactly the run |
| PageAlloc.AllocRun | deps/3rdparty/liblmdb/mdb.c:2234-2264 | takes the lowest run out of the list and keeps it strictly descending |
| PageAlloc.WithoutRun | deps/3rdparty/liblmdb/mdb.c:2257-2264 | the compacted list is strictly descending and has exactly the other pages |
| PageAlloc.InsertRange | deps/3rdparty/liblmdb/mdb.c:5537-5544 | returning an overflow range gives a strictly descending union |
| PageAlloc.MergeIsUnion | deps/3rdparty/liblmdb/midl.c:200-212 | a descending merge of lists without repetition and without common IDs is the strict list of the union |
| PageAlloc.Need | deps/3rdparty/liblmdb/midl.c:142-154 | the buffer has the same list and room for the IDs to come iff they fit already or the number of slots does not wrap |
| PageAlloc.NeedIsEnough | deps/3rdparty/liblmdb/midl.c:142-154 | the number of slots is a multiple of 256 with a quarter to spare, and is enough iff it does not wrap around 2^32 |
| PageAlloc.Alloc | deps/3rdparty/liblmdb/midl.c:103-111 | an empty list with room for the IDs iff their number and two more fit an int |
| PageAlloc.FetchRecord | deps/3rdparty/liblmdb/mdb.c:2215-2237 | a record read from the free-page database becomes the reclaimed list or is merged into it: the strictly descending union, with the record itself unchanged, iff a new list can be allocated or the buffer can grow enough |
| PageAlloc.ReturnLoose | deps/3rdparty/liblmdb/mdb.c:3170-3187 | loose pages listed and sorted in the tail of the reclaimed list's own buffer are merged into it without loss, and into the strict union when no page is listed twice |
| FreelistFill.Saver.ReadNext | deps/3rdparty/liblmdb/mdb.c:2178-2237 | reading the next record while the list is being saved adds exactly its pages to the reclaimed list, iff that can be allocated or can grow enough, and keeps the saver's books valid |
| FreelistFill.Saver.DeleteUsed | deps/3rdparty/liblmdb/mdb.c:3076-3089 | deletes exactly the records read so far and all that were reserved, keeps every other one in place, however the list grew meanwhile |
| FreelistFill.Saver.ReserveStep | deps/3rdparty/liblmdb/mdb.c:3129-3164 | each turn keeps total_room equal to the summed room of the reserved records and stops exactly when there is enough; a record gets all that is left, or an equal share rounded up to whole pages while smaller keys remain |
| FreelistFill.Saver.Fill | deps/3rdparty/liblmdb/mdb.c:3189-3215 | every reclaimed page ends up in exactly one record, as consecutive slices, records fit, keys stay, and the list with its overwritten slots is restored |
| PageAlloc.GatherLoose | deps/3rdparty/liblmdb/mdb.c:3170-3187 | room for the loose pages and the merge together: the strict union, iff the buffer can grow enough |
| FreelistFill.Saver.Reserve | deps/3rdparty/liblmdb/mdb.c:3070-3165 | when the list does not change meanwhile, the reserve loop ends with room for all page numbers and the unread records untouched |
| FreelistFill.Saver.Save | deps/3rdparty/liblmdb/mdb.c:3030-3217 | the save from deleting used records to filling new ones: reclaimed and loose pages are distributed over records as the protocol's save step demands, and exactly the unread records stay besides |
| FreelistFill.FilledDistributes | deps/3rdparty/liblmdb/mdb.c:3189-3215 | what the fill loop writes is a distribution as the protocol's save step demands: keys in [1, me_pglast], page sets apart, and together the reclaimed list |
| FreelistFill.FillStep | deps/3rdparty/liblmdb/mdb.c:3196-3213 | one record takes the next slice from the end of the list |
| NestedCommit.UnionHas | deps/3rdparty/liblmdb/mdb.c:3478-3488 | the union has the child's entries and the parent's entries for other pages, and no others |
| NestedCommit.UnionSorted | deps/3rdparty/liblmdb/mdb.c:3478-3488 | the union is sorted without repetition |
| NestedCommit.MergeDirty | deps/3rdparty/liblmdb/mdb.c:3478-3488 | the backward merge in place never overwrites an unread entry and ends with the union, its final assertion holding iff the length is the size of the union |
| NestedCommit.CountUnion | deps/3rdparty/liblmdb/mdb.c:3460-3474 | the counting branch computes the size of the union |
| NestedCommit.Search2 | deps/3rdparty/liblmdb/midl.c:280-313 | binary search in a dirty list |
| NestedCommit.DropSpilled | deps/3rdparty/liblmdb/mdb.c:3437-3458 | removes exactly the parent's spill entries for pages the child dirtied, in order |
| NestedCommit.LengthError | deps/3rdparty/liblmdb/mdb.c:3475-3477 | over every run of a child, how far the uncounted length is off |
| NestedCommit.SingleAncestorLength | deps/3rdparty/liblmdb/mdb.c:3475-3477 | the uncounted length is right iff free slots and entries of the parent add up to the maximum |
| NestedCommit.LengthWrongAfterOverflowFree | deps/3rdparty/liblmdb/mdb.c:5518-5535 | a case where it is wrong |
| NestedCommit.DirtyList.RemoveOverflow | deps/3rdparty/liblmdb/mdb.c:5518-5535 | removes the freed page's entry and keeps the order, without giving back dirty room; if there is none, the list is left rotated by one |
| PageSplit.NodesAreHalf | deps/3rdparty/liblmdb/mdb.c:4174-4175 | no node takes more than half of a page |
| PageSplit.NodeMaxExact | deps/3rdparty/liblmdb/mdb.c:4174-4175 | a node of even size is within the limit iff two of them with their offsets fit a page |
| PageSplit.ScansMeans | deps/3rdparty/liblmdb/mdb.c:8366 | the split point is searched for iff the page has at most 20 nodes with the new one, or the new one takes more than a sixteenth of it, or is the last |
| PageSplit.SplitPoint | deps/3rdparty/liblmdb/mdb.c:8366-8396 | where the page is cut, in numbers: in the middle, or as far from the front or the end as the page there allows, up to the middle unless the new node is the last |
| PageSplit.FindSplit | deps/3rdparty/liblmdb/mdb.c:8366-8396 | the loop in both directions computes the split index, which `SplitPoint` describes |
| PageSplit.ScanFits | deps/3rdparty/liblmdb/mdb.c:8366-8395 | whenever the scan runs, both pages get a node and neither overflows |
| PageSplit.SplitTwo | deps/3rdparty/liblmdb/mdb.c:8366-8395 | from five nodes on, both pages get at least two |
| PageSplit.HalfSplit | deps/3rdparty/liblmdb/mdb.c:8280-8366 | when it does not run, the split fails exactly if the half with the new node has no room for it |
| PageSplit.HalfSplitCanFail | deps/3rdparty/liblmdb/mdb.c:8366 | a page for which it fails |
| PageSplit.BelowThreshold | deps/3rdparty/liblmdb/mdb.c:847-853 | the fill test is exactly the test for a quarter of the page |
| PageSplit.LeafMergeFits | deps/3rdparty/liblmdb/mdb.c:7892-7903 | a merge chosen for leaves fits |
| PageSplit.BranchMergeFits | deps/3rdparty/liblmdb/mdb.c:7750-7792 | a merge chosen for branches fits although slot 0 gets a key |
| PageSplit.BorrowFits | deps/3rdparty/liblmdb/mdb.c:8032-8060 | a node moved from a neighbour fits |
| BTree.LookupIsPresent | deps/3rdparty/liblmdb/mdb.c:5304-5353 | descending by separators finds a key iff the tree has it, with its value |
| BTree.PageItems | deps/3rdparty/liblmdb/mdb.c:5304-5353 | the items of a well-formed tree are sorted and within its separators |
| BTree.NodeSizeMeans | deps/3rdparty/liblmdb/mdb.c:6970-6982 | a node takes its header, key and data, or an overflow page number instead, rounded up to an even size, and its offset |
| BTreePut.OvPagesExact | deps/3rdparty/liblmdb/mdb.c:6635-6703 | data goes on the smallest number of pages that hold it with one header |
| BTreePut.PlaceMeans | deps/3rdparty/liblmdb/mdb.c:7040-7075 | data goes to overflow pages iff the node would not fit the limit |
| BTreePut.InPlaceMeans | deps/3rdparty/liblmdb/mdb.c:6648-6703 | old data is overwritten in place iff it is on dirty overflow pages with enough room, or in the node and of the same size |
| BTreePut.StoredMeans | deps/3rdparty/liblmdb/mdb.c:6648-6703 | data overwritten on overflow pages keeps them all; otherwise it is placed anew |
| BTreePut.PutLeafOk | deps/3rdparty/liblmdb/mdb.c:6626-6719 | a put on a leaf, over old data in place or as a new node, leaves one or two well-formed leaves with the item stored; the separator is the right page's first key |
| BTreePut.LeafFullIff | deps/3rdparty/liblmdb/mdb.c:8366 | it fails iff the data cannot be overwritten in place, does not fit, the page has more than 20 nodes with the new one, which is not the last and takes at most a sixteenth of it, and the half that gets the node has no room |
| BTreePut.LeafSplitsAt | deps/3rdparty/liblmdb/mdb.c:8207-8518 | a leaf stays one page iff the data is overwritten in place or all nodes fit, and otherwise is cut at the split point |
| BTreePut.BranchSplits | deps/3rdparty/liblmdb/mdb.c:8207-8518 | a branch page that must be split can be, with two children or more on each side |
| BTreePut.PutBranchOk | deps/3rdparty/liblmdb/mdb.c:8410-8464 | the parent takes the separator, splitting itself if needed, and never fails |
| BTreePut.PutTreeOk | deps/3rdparty/liblmdb/mdb.c:8207-8518 | recursive splitting does to the items what storing does to a sorted sequence, keeps the tree well formed, and fails exactly when the leaf has no room; dirty overflow pages that are large enough are overwritten in place |
| BTreeDelete.LowestIs | deps/3rdparty/liblmdb/mdb.c:5376-5389 | the key found for slot 0 is the lowest below it |
| BTreeDelete.Rebound | deps/3rdparty/liblmdb/mdb.c:7544-7718 | separators may move up to the lowest key below them |
| BTreeDelete.MoveOk | deps/3rdparty/liblmdb/mdb.c:7544-7718 | moving one node keeps both pages well formed, in size and bounds, around the new separator |
| BTreeDelete.MergeOk | deps/3rdparty/liblmdb/mdb.c:7728-7853 | merging two pages gives one well-formed page that fits |
| BTreeDelete.MergeFits | deps/3rdparty/liblmdb/mdb.c:8032-8060 | the merge decided on never overflows |
| BTreeDelete.BranchBorrowFits | deps/3rdparty/liblmdb/mdb.c:7597-7620 | there is room for the moved branch node even while slot 0 holds a key |
| BTreeDelete.RebalanceOk | deps/3rdparty/liblmdb/mdb.c:7883-8065 | rebalancing one child loses no item and leaves all children with enough nodes |
| BTreeDelete.DelTreeOk | deps/3rdparty/liblmdb/mdb.c:7883-8079 | a deletion removes exactly the key and keeps depth, order, separators, sizes and node counts below the page |
| BTreeDelete.TestsMean | deps/3rdparty/liblmdb/mdb.c:7892-7903 | a page is rebalanced iff less than a quarter of it is used or it has too few nodes; a neighbour gives a node iff at least a quarter of it is used and it has nodes to spare |
| BTreeDelete.RebalancedIs | deps/3rdparty/liblmdb/mdb.c:7985-8065 | the page gets one node from its left neighbour, or from the right one if it is the first, or is merged with it; the other children stay |
| BTreeDelete.MovedSep | deps/3rdparty/liblmdb/mdb.c:7544-7718 | the separator that goes up with a moved node is the lowest key of the right page, or the key that the node had on its branch page |
| BTreeDelete.DelShape | deps/3rdparty/liblmdb/mdb.c:7883-8065 | what a deletion does to the children of a branch page: the one on the way is replaced; if it was shrunk below a quarter or below its least number of nodes it is rebalanced, and otherwise all others are unchanged |
| BTreeDelete.DelCheck | deps/3rdparty/liblmdb/mdb.c:7883-8065 | a page is looked at after a deletion iff it is the leaf or lost a child |
| BTreeDb.DbPutOk | deps/3rdparty/liblmdb/mdb.c:8239-8266 | a put stores the data under the key, keeps depth and entry count right through root splits and fails exactly when the leaf has no room |
| BTreeDb.PutHasRoom | deps/3rdparty/liblmdb/mdb.c:8366 | a put succeeds whenever the leaf has at most 20 nodes with the new one, or the new one takes more than a sixteenth of the page, or is the last |
| BTreeDb.PutCanFail | deps/3rdparty/liblmdb/mdb.c:8366 | a database and an item for which it fails |
| BTreeDb.DbDelOk | deps/3rdparty/liblmdb/mdb.c:8068-8079 | a deletion removes the key or reports its absence, and keeps depth and entry count right |
| BTreeDb.DbDelRoot | deps/3rdparty/liblmdb/mdb.c:7905-7981 | after a deletion the root is gone iff it is empty, and is its only child iff it has just one |
| BTreeDb.CollapseOk | deps/3rdparty/liblmdb/mdb.c:7905-7981 | an emptied root disappears and a root with one child gives way to it |
| BTreeDb.GetOk | deps/3rdparty/liblmdb/mdb.c:5304-5353 | a lookup finds a key iff it is there |
| BTreeDb.DatabaseIsMap | deps/3rdparty/liblmdb/mdb.c:8207-8518 | every run of puts, deletions and lookups in which no insert fails answers as a finite map does, and ends in its contents |
| SlottedPage.PgnoRoundTrip | deps/3rdparty/liblmdb/mdb.c:931-938 | a child page number is read back iff it is below 2^48 |
| SlottedPage.DszRoundTrip | deps/3rdparty/liblmdb/mdb.c:940-944 | a data size is read back iff it is below 2^32 |
| SlottedPage.HeaderAt | deps/3rdparty/liblmdb/mdb.c:876-904 | all four header fields are read back from the bytes of a node |
| SlottedPage.NodeBytes | deps/3rdparty/liblmdb/mdb.c:7105-7126 | at the offset of every node of a page, its header fields, its key and its data are read |
| SlottedPage.LeafFootprint | deps/3rdparty/liblmdb/mdb.c:6970-6982 | the space a leaf node takes is what `mdb_leaf_size` says, on an overflow page or not |
| SlottedPage.Move | deps/3rdparty/liblmdb/mdb.c:7196-7197 | an overlapping move copies the bytes as they were |
| SlottedPage.Page.AddLeaf | deps/3rdparty/liblmdb/mdb.c:7024-7135 | inserts a node with the key and its data, or with the overflow page number and F_BIGDATA iff the node would exceed the limit, moves the nodes behind up by one and takes exactly its footprint, or changes nothing iff there is no room |
| SlottedPage.Page.AddBranch | deps/3rdparty/liblmdb/mdb.c:7024-7135 | the same on a branch page, with a key of any length or none; the key and the child page number are read back |
| SlottedPage.Page.Insert | deps/3rdparty/liblmdb/mdb.c:7092-7126 | shifting the offsets and writing the bytes is inserting into the sequence |
| SlottedPage.Page.Delete | deps/3rdparty/liblmdb/mdb.c:7151-7201 | removes exactly the node, keeps all others in order and gives back its footprint |
| SlottedPage.Page.UpdateKey | deps/3rdparty/liblmdb/mdb.c:7470-7537 | replaces exactly the key, moving the nodes below either way, or changes nothing iff a longer key has no room |
| SlottedPage.InsertPacked | deps/3rdparty/liblmdb/mdb.c:7092-7126 | nodes stay packed, apart and readable |
| SlottedPage.DeletePacked | deps/3rdparty/liblmdb/mdb.c:7183-7200 | the same after a deletion |
| SlottedPage.UpdatePacked | deps/3rdparty/liblmdb/mdb.c:7504-7526 | the same after a change of size in the middle |
| SlottedPage.Tiled | deps/3rdparty/liblmdb/mdb.c:7092-7103 | every byte from mp_upper to the end of the page belongs to exactly one node |
| Cursor.NodeSearch | deps/3rdparty/liblmdb/mdb.c:5103-5192 | binary search on a leaf or branch page gives the first key not below the target, and whether it is equal |
| Cursor.ChildHolds | deps/3rdparty/liblmdb/mdb.c:5323-5336 | the child chosen from it is the one whose range holds the key |
| Cursor.ChildFor | deps/3rdparty/liblmdb/mdb.c:5313-5342 | the child the descent goes to is the first, the last, or the one whose range holds the key |
| Cursor.Cursor.PageSearch | deps/3rdparty/liblmdb/mdb.c:5304-5370 | the descent ends on the first leaf, the last leaf, or the leaf where the key belongs |
| Cursor.Cursor.Sibling | deps/3rdparty/liblmdb/mdb.c:5615-5662 | goes to the page right after or before, iff there is one; otherwise the whole path is unchanged |
| Cursor.Cursor.First | deps/3rdparty/liblmdb/mdb.c:6021-6062 | stands on the first item |
| Cursor.Cursor.Last | deps/3rdparty/liblmdb/mdb.c:6065-6108 | stands on the last item |
| Cursor.Cursor.Next | deps/3rdparty/liblmdb/mdb.c:5665-5743 | goes one item on; at the end it stays and is marked |
| Cursor.Cursor.Prev | deps/3rdparty/liblmdb/mdb.c:5746-5821 | goes one item back; at the start it stays |
| Cursor.Cursor.SetFresh | deps/3rdparty/liblmdb/mdb.c:5929-5953 | a search from the root finds the key, or the smallest one not below it; if there is none, the cursor is marked as at the end |
| Cursor.Cursor.Set | deps/3rdparty/liblmdb/mdb.c:5825-5953 | from any valid cursor, with its shortcuts, the result and position are those of a search from the root |
| Cursor.OnThisLeaf | deps/3rdparty/liblmdb/mdb.c:5839-5906 | what the present leaf tells about the place of a key |
| Cursor.Walk | deps/3rdparty/liblmdb/mdb.c:5665-5743 | first and then next until it fails visits every item once, in order |
| Cursor.WalkBack | deps/3rdparty/liblmdb/mdb.c:5746-5821 | last and then previous does so backwards |
| CursorPath.ItemsOn | deps/3rdparty/liblmdb/mdb.c:5615-5662 | the items of a page on the path are the stretch of the tree's items where the path says |
| CursorPath.MovesBeside | deps/3rdparty/liblmdb/mdb.c:5630-5660 | going to the child beside leads to the adjacent stretch |
| CursorPath.PushAfterMove | deps/3rdparty/liblmdb/mdb.c:5630-5660 | so does going down again beside the parent |
| PcrePaths.LayersComplete | deps/3rdparty/pcre/pcre_dfa_exec.c:576-692 | lists closed under the steps hold exactly the states some path reaches |
| PcrePaths.PathEnds | deps/3rdparty/pcre/pcre_dfa_exec.c:3107-3135 | when no state is left for the next character, no path goes on |
| PcreItems.LeavesExactly | deps/3rdparty/pcre/pcre_dfa_exec.c:2317-2527 | a single-character item is left exactly to the opcode after it and exactly by the texts it stands for, character by character: one, any number, at least one, at most one, up to max, or exactly max of the character, or of characters other than it |
| PcreItems.ItemMeans | deps/3rdparty/pcre/pcre_dfa_exec.c:2117-2527 | what any path reads from coming to an item until leaving it is a text the item stands for |
| PcreItems.ItemReads | deps/3rdparty/pcre/pcre_dfa_exec.c:2117-2527 | and every text the item stands for can be read there |
| PcreGroups.GroupSound | deps/3rdparty/pcre/pcre_dfa_exec.c:771-853 | what a path reads from a bracket to behind its end is one text of an alternative, or several in a row when the group repeats |
| PcreGroups.GroupRuns | deps/3rdparty/pcre/pcre_dfa_exec.c:771-853 | and every such text can be read there |
| PcreGroups.Sound | deps/3rdparty/pcre/pcre_dfa_exec.c:771-2527 | what a path reads in an expression laid out in the pattern is a text the expression stands for |
| PcreGroups.Complete | deps/3rdparty/pcre/pcre_dfa_exec.c:771-2527 | and every text it stands for can be read there |
| PcreGroups.Keeps | deps/3rdparty/pcre/pcre_dfa_exec.c:771-853 | a path in an expression stays at its opcodes until it leaves it to what follows |
| PcreGroups.PatternMeans | deps/3rdparty/pcre/pcre_dfa_exec.c:617-2527 | the end of the pattern is reachable after exactly the texts of its alternatives |
| PcreGroups.EndsMean | deps/3rdparty/pcre/pcre_dfa_exec.c:540-3135 | so the match ends found are exactly the ends of such texts from the start position |
| PcreDfa.Exec | deps/3rdparty/pcre/pcre_dfa_exec.c:540-3135 | finds exactly the match ends that paths through the pattern reach, returns their number, or 0 when the vector is too short, or no match, and stores the longest first; it stops for an unsupported opcode only if one can be reached and succeeds only if none can, and stops for lack of workspace only if the different reachable states need more |
| PcreDfa.Scan | deps/3rdparty/pcre/pcre_dfa_exec.c:617-853 | working through the active states, duplicates skipped, reaches everything reachable at one position and records its match at most once |
| PcreDfa.Save | deps/3rdparty/pcre/pcre_dfa_exec.c:786-799 | the vector keeps the longest matches first and drops only the shortest when it overflows |
| PcreDfa.IsDuplicate | deps/3rdparty/pcre/pcre_dfa_exec.c:675-687 | tells whether an equal state came earlier |
| PcreDfa.DoneStep | deps/3rdparty/pcre/pcre_dfa_exec.c:2317-2527 | after a state is worked on, all it leads to is in the lists, and only reachable states are |
| SimdBits.BitsOr | deps/3rdparty/libsimdcomp/simdcomputil.c:9-20 | the bit width of an OR is the maximum of the widths |
| SimdBits.BitsBound | deps/3rdparty/libsimdcomp/simdcomputil.c:9-20 | a width of n is enough exactly for numbers below 2^n |
| SimdBits.WidthOfLargest | deps/3rdparty/libsimdcomp/simdcomputil.c:22-29 | the largest width is that of the largest number |
| SimdBits.DeltaIs | deps/3rdparty/libsimdcomp/simdcomputil.c:4-6 | the shifted vectors subtract from each lane the one before it |
| SimdBits.DiffsMean | deps/3rdparty/libsimdcomp/simdcomputil.c:4-6 | each difference is the number less the one before it, modulo 2^32 |
| SimdBits.MaxBits | deps/3rdparty/libsimdcomp/simdcomputil.c:22-29 | the width of a block |
| SimdBits.SimdMaxBitsD1 | deps/3rdparty/libsimdcomp/simdcomputil.c:39-53 | the width of the differences of a block, modulo 2^32 |
| SimdBits.PaddedBlock | deps/3rdparty/libsimdcomp/simdcomputil.c:71-85 | padding one to three numbers adds differences of zero |
| SimdBits.SimdMaxBitsD1Length | deps/3rdparty/libsimdcomp/simdcomputil.c:57-107 | the same for any length below 2^32 - 4, vector part and scalar tail together; on the last four lengths the loop would read past the input |
| SimdBits.GuardExact | deps/3rdparty/libsimdcomp/simdcomputil.c:90-95 | the 32-bit loop test is right iff the length is below 2^32 - 4 |

## Left out

- Writing a meta page is one step that either happens or not when a crash interrupts it; failing writes and syncs, and sync-disabling flags, are not modelled.
- A reader's recheck and its copy of the roots are one step; memory is sequentially consistent.
- Nested transactions, named databases and cursors are not part of the protocol machine; nested commits are in `NestedCommit`.
- FreelistFill.Saver.Save: the list and the loose pages stay as they are during the save; what puts made by the save itself do to them is in the single steps of `FreelistFill.Saver`, and the retry loop is not shown to end when they grow. The record of the pages that the transaction freed is not part of it.
- Loose pages of a nested transaction, child transactions that spill, and `mdb_midl_shrink`.
- B+tree pages are values: updating page buffers in place is modelled in `SlottedPage`, page by page, and copy-on-write in `Mvcc`; fixing up other open cursors after a change is left out.
- Keys of different lengths, duplicate keys, sub-databases, appending with `MDB_APPEND`, and separators that need a split of their own.
- After a put that fails with `MDB_PAGE_FULL` the transaction can only be aborted; the model keeps the database as before the put.
- Cursor.Cursor.Next: after a deletion through the cursor (C_DEL) the next item is not skipped in the code; cursors here move over a tree that does not change.
- The limit of 32 levels on the cursor stack, and the check for an empty leaf, which a well-formed tree does not have.
- BTreePut.PutTreeOk: whether the overflow pages of the old data are dirty in the transaction is a parameter of the put; copying a parent transaction's dirty overflow page first is not modelled.
- PageAlloc.Need: running out of memory is not modelled.
- SlottedPage.Page: the offset array and the header bounds are fields beside the byte array; that they do not reach into the nodes is mp_lower <= mp_upper.
- SlottedPage.Page.AddLeaf: allocating the overflow page is left to the caller, who passes its number.
- PcreDfa.Exec: covers literals, any-character, star, plus, query, upto and exact repeats of a character or its complement, plain and capturing brackets, alternation, repeated and optional groups; other opcodes stop with the unsupported-opcode error, links in the compiled pattern are taken to be well formed, and options are the default ones.
- PcreGroups.PatternMeans: the pattern is taken to be laid out as `Laid` says; the pattern compiler that does so is not part of this model.
- PcreDfa.Scan: adds the states that one opcode leads to at once, so lack of workspace is reported for the opcode rather than for the state.
- Everything else in EventQL: its own services, tables and query engine, and the libraries' I/O and platform code.
