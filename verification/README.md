# Verification of a deduplicating backup engine

A Dafny model of the parts of the DiskNexus engine on which restored data depends,
and proofs about it. A backup cuts a disk or file stream into content-defined chunks,
stores each new chunk once as a frame in numbered packs, indexes frames by hash, and
lists the chunks in a manifest. The project models

- the resumable store loop, its checkpoints and the reconcile step, as sixteen events
  of which a crash may fall between any two (`Backup*.dfy`), and from there to the
  restored source (`BackupRestore.dfy`);
- prune's directory swap and its recovery (`PruneSwap.dfy`), the reference closure and
  the rewrite of packs (`Forget.dfy`, `Pruning.dfy`), and retention (`Retention.dfy`);
- the dedup index: a linear-probing table built in segments, a buffer over table and
  sorted file, the streaming fold of deltas, and the Bloom filter in front
  (`DiskHashTable.dfy`, `HashTableBuild.dfy`, `HashIndex.dfy`, `FoldStream.dfy`,
  `Bloom.dfy`, `DedupIndex.dfy`);
- the chunker and its rolling hash (`Buzhash.dfy`, `Chunker.dfy`);
- fitting a captured partition table to another drive and writing it as a GPT
  (`FitPlan.dfy`, `FitAlign.dfy`, `FitRefusals.dfy`, `GptLayout.dfy`, `GptFit.dfy`, `FitDisk.dfy`,
  `SampleDisks.dfy`);
- qcow2 and dynamic VHD images, written and read (`ImageFile.dfy`, `Qcow2*.dfy`,
  `Vhd*.dfy`);
- the manifest file in both layouts, and ranged reads of it (`Dnm*.dfy`);
- restore of a whole stream and of one file (`Restore.dfy`), and the exclusion map
  (`ExclusionMap.dfy`).

Code that changes things in place is a class or a method with loops; what it is proved
against are functions and predicates on values, and the lemmas are about those.
`dafny verify dfyconfig.toml` checks everything.

## What is assumed

- The strong hash is collision-free on the data in play, and never all zero: that value
  marks an empty slot. Chunks with equal strong hashes have equal weak ones.
- Checksums (CRC-32) are a parameter. A segment whose write was cut short fails its
  checksum and reads as torn.
- The pack store appends frames to numbered packs. A pack number above the current one
  means the packs below it are sealed and durable.
- A crash may lose any part of what was not synced, and a directory removal may stop
  half way. Renames happen whole or not at all, and onto a directory only if it is empty.
- Times are numbers, strings are their bytes in the manifest, floating-point numbers
  their bits. Offsets within a pack count frames.
- Where wrap-around can be reached it is modelled (partition planning, byte places of
  GPT entries, image table entries, manifest counts); elsewhere numbers are unbounded.

## What turned out false

- A fast resume leaves a torn segment in place when it stands right behind the segments
  to keep. Segments written later are then never read again, and the next resume takes
  the slow path. `BackupSafety.NextSegmentReadable` gives the exact condition,
  `BackupSafety.TornTailHidesSegment` a case and `BackupTornTail.TornTailReached` a run
  that ends in it.
- Removal errors are ignored when a swap cleans up. If `chunks.prune-old` survives, the
  next swap fails at its first rename, and recovery then installs the new index over the
  old packs. `PruneSwap.StaleOldChunksMix` gives the exact condition,
  `PruneSwap.FailedRemovalMixes` the way there from one failed removal.
- The final check of a fit plan has no lower bound. `FitPlan.LowerBound` says exactly when
  a plan starts within the usable area, for plans that grow, shrink, move or stay: without
  realigning, if and only if the capture did. `FitPlan.LowStartStays` is one that does not.
- A target can be refused that would do. Gaps before the first partition that can give
  are never closed. `FitRefusals.RightlyRefused` gives the exact condition and
  `FitRefusals.GapNotClosed` a layout; `FitRefusals.ShrinkExplained` says of every layout
  what a refusal for lack of room leaves behind.
- An accepted plan need not be one that can be carried out: nothing checks that the
  captured primary region and the new backup region find room on the target together.
  For a capture whose array lies behind its header `FitDisk.CarriedOutExactly` gives the
  exact condition and `FitDisk.CarriedOutWhen` what to check beforehand. On the target of
  `SampleDisks.FarArrayAccepted` the array is out of reach, on that of
  `SampleDisks.RegionsCollide` the two regions overwrite each other.
- A partition can be planned at its captured size and yet be flagged as grown, when a
  realignment is undone: `FitPlan.GrownInName` says exactly when, `FitPlan.GrowthUndone` is
  a case.
- A partition's byte place wraps at 64 bits, so partitions far beyond the disk are
  accepted. `GptLayout.ParsedOnDisk` gives the exact condition for every partition of every
  parsed disk, `SampleDisks.FarPartParses` two disks with one that fails it.
- The backup GPT header lands on the last sector only if the entry array is a whole
  number of sectors: `GptFit.BackupLands`, and `SampleDisks.FarBackupAside` for a disk
  where it never does.
- A dynamic VHD's 32-bit block sectors wrap beyond about 2 TiB of allocated blocks.
  `VhdWriter.RoomExactly` gives the exact condition, `VhdWriter.Overwritten` what a block
  without room runs over, `VhdWriter.RoomSizes` a size on either side. A qcow2 table entry
  loses offsets from 2^56 on: `Qcow2Image.OffsetReadable`.
- Manifest strings and counts beyond their fields are cut: `DnmCodec.StrBack` and
  `DnmCodec.CountBack`.
- Without a hash table the index counts only its buffer, which is right if and only if
  the buffer has every hash of the file: `HashIndexes.HashIndex.Count`. A file of one
  record counts as none: `HashIndexes.CountWithoutTable`.

## Model

| member | source | states |
|---|---|---|
| `BackupRuns.CompletedRunRestores` | core/pipeline/pipeline.go:863-1122 | However often a backup crashed, was suspended, resumed, pruned around or overtaken by other backups, once it has a manifest its entries tile the source in order, each names a frame holding exactly its slice, a recorded digest is that of the whole source, and concatenating the frames gives the source |
| `BackupRuns.RunKeeps` | core/pipeline/pipeline.go:383-1122 | The protocol's invariant holds after every legal run of events from any repository whose index resolves |
| `BackupRuns.SegmentNamesSealedPacks` | core/pipeline/pipeline.go:903-922 | In every reachable state, each insert a checkpoint's segment would record names a sealed pack and resolves to a durable frame of its hash |
| `BackupRuns.CheckpointResumable` | core/resume/reconcile.go:49-175 | After any run, an interrupted backup with a checkpoint and a sidecar, whose packs were not pruned since, can be resumed: by the fast path or by rebuilding the index |
| `BackupRuns.PrunedResumable` | core/prune/prune.go:34-39 | A prune that keeps the hashes of the checkpointed prefix, as prune is asked to while a backup is suspended, leaves that backup resumable over a rebuilt index |
| `BackupRuns.RunProgress` | core/resume/reconcile.go:126-175 | In every reachable state, every hash the checkpointed prefix lists is held by a frame no crash can take, as long as the pack layout is the checkpoint's |
| `BackupRuns.RestoredPrefix` | core/pipeline/pipeline.go:951-966 | Entries that chain and whose hashes resolve to their slices restore exactly the prefix of the source they cover |
| `BackupRestore.CompleteDescribes` | core/restore/restore_entries.go:45-146 | Seen by restore, a complete backup describes the whole source and every chunk of it can be read |
| `BackupRestore.RestoreRun` | core/restore/restore_entries.go:45-146 | After any legal run that ended with a manifest, whatever crashed on the way, restoring succeeds and the target is exactly the source |
| `BackupRestore.RestoreRange` | core/restore/filerestore.go:435-541 | After any such run every range of the source is restored byte for byte |
| `BackupRestore.ChunkerCuts` | core/chunker/chunker.go:139-185 | The chunker, with the state it carries along a stream, is one of the cuts the backup loop is proved for |
| `BackupSafety.Keep` | core/pipeline/pipeline.go:863-1122 | Every one of the sixteen events keeps the invariant |
| `BackupSafety.KeepStore` | core/pipeline/pipeline.go:895-912 | Storing a frame, sealing a pack or not, keeps the invariant |
| `BackupSafety.KeepCheckpoint` | core/pipeline/pipeline.go:342-381 | Writing the checkpoint after its segment keeps the invariant: the prefix it names is durable |
| `BackupSafety.KeepCrash` | core/pipeline/pipeline.go:907-922 | A crash that loses any unsynced tail of pack, sidecar or segment file keeps the invariant |
| `BackupSafety.KeepResumeFast` | core/resume/reconcile.go:86-122 | Resuming from replayed segments keeps the invariant |
| `BackupSafety.KeepResumeSlow` | core/resume/reconcile.go:126-175 | Resuming over a rebuilt index that has every hash of the prefix keeps the invariant |
| `BackupSafety.KeepSave` | core/pipeline/pipeline.go:1046-1122 | A manifest saved after the index flush describes a complete backup |
| `BackupSafety.NextSegmentReadable` | core/checkpoint/segment.go:214-243 | A false promise made exact: after a fast resume the next segment can be read back if and only if the file held no torn tail right behind the kept segments |
| `BackupSafety.TornTailHidesSegment` | core/checkpoint/segment.go:194-243 | Behind one kept segment and a torn one, a later whole segment is never read |
| `BackupTornTail.TornTailReached` | core/resume/reconcile.go:86-122 | For every source of three bytes or more, a legal run that checkpoints, crashes in the next segment, resumes by the fast path and checkpoints again ends with a whole segment no parse reaches |
| `BackupLoop.ParseSegments` | core/checkpoint/segment.go:194-208 | Returns the longest readable prefix of the segments, numbered from zero |
| `BackupLoop.ReplaySegments` | core/checkpoint/segment.go:265-284 | Returns the inserts and sidecar length of the wanted prefix of segments, or refuses when one is missing |
| `BackupLoop.TryFast` | core/resume/reconcile.go:86-122 | Accepts exactly when generation, segments and sidecar agree with the checkpoint, and returns the inserts to preload |
| `BackupLoop.Rebuild` | core/resume/reconcile.go:54-65 | The rebuilt index resolves every hash it has, and has the hash of every frame in every pack |
| `BackupLoop.VerifyPrefix` | core/resume/reconcile.go:126-175 | True if and only if every hash of the checkpointed prefix is in the index |
| `BackupLoop.Backup.constructor` | core/pipeline/pipeline.go:290-300 | Starts at a repository in which this backup has not begun |
| `BackupLoop.Backup.Begin` | core/pipeline/pipeline.go:834-861 | A fresh run is one Start event of the protocol |
| `BackupLoop.Backup.Resume` | core/resume/reconcile.go:49-80 | Picks the run up at its checkpoint's offset; succeeds whenever a sidecar is there and the packs were not pruned; a refusal changes nothing but index and segments |
| `BackupLoop.Backup.Reopen` | core/manifest/manifest.go:243-270 | Cuts the sidecar back to the checkpoint and sets every loop variable from it |
| `BackupLoop.Backup.StoreRaw` | core/pipeline/pipeline.go:903-906 | Stores the chunk in the open pack, or in the next one exactly when the open one is full, as a step of the protocol |
| `BackupLoop.Backup.EmitCheckpoint` | core/pipeline/pipeline.go:342-381 | Segment then checkpoint, with the triggering chunk left out of both |
| `BackupLoop.Backup.AddNew` | core/pipeline/pipeline.go:895-925 | A new chunk adds exactly one frame, and is checkpointed before it is indexed if it sealed a pack, without moving offset, tallies or index |
| `BackupLoop.Backup.StoreChunk` | core/pipeline/pipeline.go:863-977 | One turn of the store loop: a chunk the index has is listed and tallied as a duplicate, with packs and index unchanged; any other adds exactly one frame, one hash to the index and one to the unique tally |
| `BackupLoop.Backup.Finish` | core/pipeline/pipeline.go:979-1122 | Flushes the index before the manifest appears, with the entries, tallies and digest of the loop; the whole stays a legal run |
| `BackupLoop.Backup.Run` | core/pipeline/pipeline.go:863-1122 | For every way of cutting the stream, the loop from wherever it was begun or resumed ends with a manifest from which the source can be rebuilt, having stored one frame for each hash it listed that the index did not have, and none else |
| `BackupLoop.Backup.RunFresh` | core/pipeline/pipeline.go:834-1122 | Of a backup from beginning to end, the unique tally and the frames the packs gained are both the number of distinct hashes listed that the index did not have, and the digest is that of the source |
| `PruneSwap.RecoveryIsClean` | core/prune/prune.go:538-599 | Wherever a prune stopped, recovery leaves packs, generation tag and index all old or all new, and nothing else |
| `PruneSwap.StaleOldChunksMix` | core/prune/prune.go:461-520 | A false promise made exact: a swap that stopped at its first rename is recovered to the new index over the old packs if and only if chunks.prune-old is there from before, whatever else is left aside; otherwise to the old version |
| `PruneSwap.FailedRemovalMixes` | core/prune/prune.go:515-519 | From one failed removal of the old packs, the next prune and its recovery end with the new index over the old packs |
| `PruneSwap.Repository.Rename` | core/prune/prune.go:461-520 | A rename happens whole or not at all, and onto an existing directory only if nothing is left in it |
| `PruneSwap.Repository.Recover` | core/prune/prune.go:538-599 | From any repository whatever, a recovery that completes leaves exactly what the recovery function says; one cut short after a prune can be taken up again and ends in the same state; with nothing in its way it completes |
| `PruneSwap.Repository.AtomicSwap` | core/prune/prune.go:461-520 | However it ends the repository stays recoverable; success is exactly the new version and comes if nothing fails, a reported failure is exactly the old one; with old packs left aside it changes nothing, unless nothing was left of them |
| `PruneSwap.Repository.InstallChunks` | core/prune/prune.go:488-497 | Renames the new packs in or rolls the old ones back |
| `PruneSwap.Repository.InstallIndex` | core/prune/prune.go:499-512 | Renames the new index in or rolls index and packs back |
| `PruneSwap.Repository.CleanUp` | core/prune/prune.go:514-519 | Leftovers are removed without endangering the new version |
| `PruneSwap.Repository.Prune` | core/prune/prune.go:69-214 | One prune, cut short anywhere, leaves a recoverable repository; a failed one recovers to what was there; one with nothing in its way ends at the new version |
| `PruneSwap.Repository.PruneAll` | core/prune/prune.go:461-599 | Any number of prunes, each crashed anywhere, then a completed recovery: packs and index are of one and the same version, the last if nothing went wrong |
| `HashTableBuild.NoEmptySegment` | core/index/hashindex.go:154-165 | Every segment of the build starts inside the table and together they cover it |
| `HashTableBuild.Distribute` | core/index/hashindex.go:167-238 | Each bucket holds, in order, exactly the records whose home lies in its segment |
| `HashTableBuild.PlaceCarried` | core/index/hashindex.go:290-313 | Carried records are placed from slot 0 or carried on; none is lost |
| `HashTableBuild.PlaceBucket` | core/index/hashindex.go:329-390 | Each record of the bucket is on its probe path or carried on; the count is exact |
| `HashTableBuild.WrapAround` | core/index/hashindex.go:392-425 | Whatever the last segment carried finds a slot at the front of the table |
| `HashTableBuild.BuildSegment` | core/index/hashindex.go:277-390 | One segment extends a partial table by exactly its bucket |
| `HashTableBuild.BuildHashTable` | core/index/hashindex.go:154-445 | For every list of distinct non-zero hashes the result is a valid linear-probing table of exactly those records, with the exact count |
| `HashTables.AbsentAtGap` | core/index/hashtable.go:101-124 | In a valid table, probing from its home to a gap without meeting a hash proves it absent |
| `HashTables.LiveListsContents` | core/index/hashtable.go:170-185 | The used slots list each record of the table once |
| `HashTables.DiskHashTable.Lookup` | core/index/hashtable.go:101-124 | Answers as the map the table stands for |
| `HashTables.DiskHashTable.Insert` | core/index/hashtable.go:129-167 | Refuses exactly above 85 per cent load, else updates the map and keeps the table valid |
| `HashTables.DiskHashTable.ReadAll` | core/index/hashtable.go:170-185 | Lists every record exactly once |
| `HashIndexes.LowerBound` | core/index/hashindex.go:471-495 | Finds where the run of a prefix begins |
| `HashIndexes.DiskLookup` | core/index/hashindex.go:471-512 | The binary search answers as the file's map |
| `HashIndexes.LookupBothWays` | core/index/hashindex.go:452-512 | On a flushed file the hash table and the binary search give the same answer |
| `HashIndexes.HashIndex.constructor` | core/index/hashindex.go:63-112 | Opening gives the file's map |
| `HashIndexes.HashIndex.Lookup` | core/index/hashindex.go:452-463 | Answers as a last-write-wins map over buffer, table and file |
| `HashIndexes.HashIndex.Insert` | core/index/hashindex.go:521-532 | Adds to the map and leaves the durable copy alone |
| `HashIndexes.HashIndex.FlushDelta` | core/index/hashindex.go:536-562 | Empties the buffer without changing what the index answers or its durable copy |
| `HashIndexes.HashIndex.GrowHashTable` | core/index/hashindex.go:567-615 | Doubles the table and keeps its map |
| `HashIndexes.HashIndex.Flush` | core/index/hashindex.go:620-755 | Makes the durable copy equal to what the index answers |
| `HashIndexes.HashIndex.Count` | core/index/hashindex.go:800-819 | A false promise made exact: the number of distinct hashes if and only if there is a table, or the buffer has every hash of the file; without a table the number of buffered ones |
| `HashIndexes.CountWithoutTable` | core/index/hashindex.go:800-819 | An index opened without its table over a file of one record answers for that record and counts none |
| `HashIndexes.HashIndex.CloseDiscard` | core/index/hashindex.go:827-847 | Leaves the durable copy as it was |
| `HashIndexes.HashIndex.Close` | core/index/hashindex.go:849-877 | Makes everything durable |
| `HashIndexes.RunHistory` | core/index/hashindex.go:452-877 | Any history of operations on the index is the same history on a plain map with a durable copy |
| `HashIndexes.DurableUntouched` | core/index/hashindex.go:521-562 | No history without a flush or close changes the durable copy |
| `HashIndexes.DiscardReturnsToLastFlush` | core/index/hashindex.go:827-847 | Whatever follows a flush, discarding and reopening returns to that flush |
| `FoldStream.WinnersBySorting` | core/index/foldstream.go:265-275 | Sorting by hash and arrival number picks the same winners as applying the records in order |
| `FoldStream.CollectWinners` | core/index/foldstream.go:207-218 | The last record of each hash within one prefix |
| `FoldStream.NextRun` | core/index/foldstream.go:338-368 | The base records sharing the next prefix |
| `FoldStream.MergePass` | core/index/foldstream.go:155-263 | One pass leaves a duplicate-free, prefix-sorted file whose map is the base overridden by the batch |
| `DedupIndexes.FoldDeltas` | core/index/foldstream.go:50-143 | For every batch budget the fold's file is duplicate-free and sorted, its map is the base overridden by all deltas in order, and the filter covers them; as many passes as the budget asks for, each a prefix of the deltas folded in |
| `DedupIndexes.FoldBothWays` | core/index/deltaapply.go:55-83 | The streaming fold equals merging the deltas at open and flushing, whatever the filter |
| `DedupIndexes.FoldAgain` | core/index/foldstream.go:50-143 | A fold that stopped after any pass can simply be run again |
| `DedupIndexes.InterruptedFoldCovers` | core/index/foldstream.go:50-143 | After a fold stopped at any pass the saved filter and the pending deltas still cover the file |
| `Bloom.BloomFilter.Add` | core/index/bloom.go:64-73 | Sets exactly the item's bits |
| `Bloom.BloomFilter.MayContain` | core/index/bloom.go:77-88 | True if and only if all the item's bits are set |
| `Bloom.MixedValues` | core/index/bloom.go:104-120 | The mixing function and the positions at known values |
| `DedupIndexes.DedupIndex.constructor` | core/index/dedup.go:62-131 | Opening merges the pending deltas; the filter covers the index unless it is reported suspect |
| `DedupIndexes.DedupIndex.ApplyPendingDeltas` | core/index/deltaapply.go:55-83 | The merged index is the file overridden by the deltas, and the filter is suspect exactly when it was missing over a non-empty file |
| `DedupIndexes.DedupIndex.Check` | core/index/dedup.go:247-275 | With a covering filter a chunk is new if and only if its strong hash is absent, and the entry returned is the index's |
| `DedupIndexes.DedupIndex.Insert` | core/index/dedup.go:278-290 | Adds to the index and keeps the filter covering it |
| `DedupIndexes.DedupIndex.Flush` | core/index/dedup.go:309-332 | The file becomes the index, and the filter saved first covers it if it covered the index |
| `DedupIndexes.DedupIndex.Reopen` | core/index/dedup.go:62-131 | Losing the process anywhere and opening again gives file and deltas, covered if the saved filter covered them |
| `DedupIndexes.ApplyAll` | core/index/dedup.go:62-332 | Any history of inserts, merges, flushes and reopens is the same history on a plain map with a durable copy |
| `DedupIndexes.CheckAfter` | core/index/dedup.go:247-290 | After any sequence of inserts, merges, flushes and reopens, Check reports a chunk new if and only if its strong hash is absent from the map that sequence leaves, and returns that map's entry |
| `Forget.ReferenceEdges` | core/forget/forget.go:196-210 | Lists each reference of a manifest exactly once, and whether it is to the parent or for data |
| `Forget.Visit` | core/forget/forget.go:247-259 | One turn of the worklist: what it adds is forced and says for whom, what it leaves out is absent or reported, in order |
| `Forget.Protect` | core/forget/forget.go:225-262 | Ends with the least set that contains the keeps and is closed under references to existing backups, each promotion explained by a protected backup that refers to it; reports exactly the dangling references, each once, in the order of visits that begins with the keeps alphabetically; stops only at a manifest that is needed and unreadable |
| `Forget.ReachedIsForced` | core/forget/forget.go:225-262 | Whatever a forced backup reaches is forced |
| `Forget.ChainSurvives` | core/forget/forget.go:225-262 | Everything along a chain of references from a survivor survives |
| `Pruning.CollectReferenced` | core/prune/prune.go:222-268 | Exactly the hashes some remaining manifest lists |
| `Pruning.DedupeInPlace` | core/prune/prune.go:147-161 | Compacting the slice in place leaves the first entry of each hash, in order |
| `Pruning.KeptFirst` | core/prune/prune.go:137-161 | The first referenced entry of a hash is its first entry of all |
| `Pruning.RewriteChunks` | core/prune/prune.go:337-424 | Each frame is copied whole to the place the new index gives it, in order, packs filled one after the other; fails if and only if a frame cannot be read |
| `Pruning.CarriedSurvives` | core/prune/prune.go:337-424 | After the rewrite every referenced hash that was indexed resolves to the same frame, and nothing unreferenced is indexed |
| `Pruning.Prune` | core/prune/prune.go:69-214 | Unchanged if and only if every entry is wanted and none is double; refused if and only if a wanted chunk cannot be read; else exactly the wanted chunks survive, frame for frame, in the order they had, in packs filled one after the other |
| `Pruning.AnyCopySurvives` | core/prune/prune.go:137-161 | Prune keeps the first entry of a hash where a lookup takes the last: as long as entries name frames of their hash, what is read afterwards is what any of them gave |
| `Pruning.ForgetAndPrune` | core/forget/run.go:90-181 | Refuses if and only if nothing would be kept; else deletes exactly what no keep needs, and prunes, if anything was deleted, so that the rest survives |
| `Pruning.SurvivorsReadable` | core/forget/run.go:90-181 | After forget and prune, what a survivor or anything it leads back to had in the index is read back frame for frame |
| `Retention.RecencyOrder` | core/retention/retention.go:68-76 | Newest-first is a total preorder |
| `Retention.SelectSeeds` | core/retention/retention.go:105-156 | Exactly the active backups, the newest of each source and the newest of each age bucket, each for that reason |
| `Retention.Ladder` | core/retention/retention.go:136-156 | Keeps every backup no newer one in its bucket beats, and no other |
| `Retention.KeepAncestors` | core/retention/retention.go:169-175 | Keeps every known ancestor, and only what is forced |
| `Retention.KeepSiblings` | core/retention/retention.go:176-183 | Keeps every member of the snapshot, and only what is forced |
| `Retention.Close` | core/retention/retention.go:158-185 | The fixpoint is the least set closed under ancestors and snapshot siblings; seeds keep their reasons, and the others are kept for a child or sibling that is kept |
| `Retention.Select` | core/retention/retention.go:92-195 | The kept set is the least closed one from the seeds, each with the reason that holds of it; the forget list is the rest, sorted; whatever is forgotten, a backup that is kept stands in for it |
| `Retention.LeastIsUnique` | core/retention/retention.go:158-185 | There is one least closed set, whatever the order of the backups |
| `Retention.OrderDoesNotMatter` | core/retention/retention.go:92-195 | What is kept depends on which backups there are and not on their order |
| `Retention.ForgottenHasNewerKept` | core/retention/retention.go:126-156 | Whatever is forgotten, a completed backup of the same source with as many whole cadences of age is kept that finished later, or in the same instant having started later, or in the same instants with the smaller id |
| `Retention.NewestIsKept` | core/retention/retention.go:112-124 | A backup no completed one of its source is later than is never forgotten |
| `Retention.BucketsExactly` | core/retention/retention.go:78-89 | Two backups compete if and only if their ages have the same positive cadence, by tiers of 7, 90 and 365 days, and the same number of whole ones |
| `Retention.NewerIsLater` | core/retention/retention.go:68-76 | The order in times and ids |
| `StringOrder.LessExactly` | core/retention/retention.go:75 | Ids are ordered by the first character in which they differ, a prefix first |
| `Buzhash.RollIsDirect` | core/chunker/chunker.go:188-205 | Rolling one byte in and one out gives the direct hash of the new window |
| `Buzhash.DirectAppend` | core/chunker/chunker.go:188-205 | Appending a byte rotates the direct hash and mixes the byte in |
| `Buzhash.DirectBits` | core/chunker/chunker.go:188-205 | Bit by bit, the hash is the parity of the table words' bits, each byte one place higher for every byte behind it |
| `Buzhash.ZeroWindowHash` | core/chunker/chunker.go:105-111 | The starting hash is the direct hash of 48 zeros |
| `Chunker.Chunker.constructor` | core/chunker/chunker.go:114-131 | Starts with the hash of the zero window |
| `Chunker.Chunker.ReadByte` | core/chunker/chunker.go:227-261 | The bytes of the stream in order, however the reader delivers them |
| `Chunker.Chunker.UpdateHash` | core/chunker/chunker.go:188-200 | The ring holds the last 48 bytes and the hash is their direct hash |
| `Chunker.Chunker.NextChunk` | core/chunker/chunker.go:139-185 | The next chunk runs to the next cut of the stream as the direct hash defines it |
| `Chunker.FirstPlace` | core/chunker/chunker.go:165-183 | A chunk ends at the first place where, below the minimum size, the hash is clear at every bit of the mask and two above, or from there to the maximum two below, or with the stream |
| `Chunker.EndsInBits` | core/chunker/chunker.go:128-129 | The hard and the easy mask in bits of the base mask |
| `Chunker.CutsExactly` | core/chunker/chunker.go:139-185 | The cuts are exactly the ends of the first n chunks, for every n |
| `Chunker.WindowIs` | core/chunker/chunker.go:105-131 | The hash is of the last 48 bytes, or of fewer behind zeros |
| `Chunker.ReadAll` | core/chunker/chunker.go:139-185 | The chunks depend on the stream alone |
| `Chunker.ChunksTile` | core/chunker/chunker.go:139-185 | The chunks concatenate to the stream |
| `Chunker.ChunkSizes` | core/chunker/chunker.go:139-185 | No chunk is empty or longer than the maximum allows |
| `Chunker.SameHash` | core/chunker/chunker.go:188-200 | 48 bytes into a common suffix the hash no longer depends on what came before |
| `Chunker.SameChunks` | core/chunker/chunker.go:139-205 | Two streams with a common suffix are chunked alike from any start 48 bytes into it |
| `Chunker.Resync` | core/chunker/chunker.go:139-205 | Two streams that both cut at one point at least 48 bytes into a common suffix emit identical chunks from then on |
| `FitPlan.PackTrailing` | core/disklayout/fit.go:236-258 | The trailing partitions are packed against the end of the drive, each at the last aligned place, sizes kept; refused exactly when a logical one is among them |
| `FitPlan.PackedTight` | core/disklayout/fit.go:236-258 | Packing wastes less than one alignment unit per partition |
| `FitPlan.Grow` | core/disklayout/fit.go:219-262 | Exactly the last data partition grows, up to what the trailing ones leave, and nothing changes unless that is more than it had |
| `FitPlan.Relayout` | core/disklayout/fit.go:382-400 | Before the first shrunk partition nothing moves; behind it each follows its predecessor, aligned; refused exactly when a logical one is behind a shrunk one |
| `FitPlan.TakeFrom` | core/disklayout/fit.go:293-313 | Each non-logical data partition gives what those behind it left to give, and no other changes |
| `FitPlan.TakenInAll` | core/disklayout/fit.go:293-313 | What is given and what is still needed add up to what was needed |
| `FitPlan.LastGiveFirst` | core/disklayout/fit.go:264-313 | A partition gives only when every one behind it is down to its floor |
| `FitPlan.ShrinkToFit` | core/disklayout/fit.go:264-331 | The passes of taking and laying out again, to the letter; each keeps the plan fair, and a shrink that reports success ends within the usable area |
| `FitPlan.Realign` | core/disklayout/fit.go:332-356 | Each non-logical partition goes to the first aligned place behind the one before it; when the tail would not fit, what only moved goes back; fair either way |
| `FitPlan.Undo` | core/disklayout/fit.go:346-355 | Exactly what only moved gets its captured extents back |
| `FitPlan.Check` | core/disklayout/fit.go:363-376 | Accepts if and only if partitions are in order, disjoint and end by the last usable sector |
| `FitPlan.PlanFit` | core/disklayout/fit.go:152-377 | Every applicable plan is in order, disjoint, within bounds and fair to each partition, with the exact condition of its lower bound, and leaves every shrunk filesystem the bytes it is known to need; what it answers is determined but for the order of partitions that start alike; a layout that fits stays as it is unless asked otherwise |
| `FitPlan.LowerBound` | core/disklayout/fit.go:363-376 | A false promise made exact, for every applicable plan: without realigning, all partitions start within the usable area if and only if the captured ones did; a realigned layout that fits does whatever the capture was |
| `FitPlan.LowStartStays` | core/disklayout/fit.go:363-376 | A concrete capture, target and choice for which the plan given keeps a partition below the usable area |
| `FitPlan.GrownInName` | core/disklayout/fit.go:333-356 | A false promise made exact, for every applicable plan: a partition flagged as grown has its captured size if and only if a realignment that did not fit would have moved it |
| `FitPlan.GrowthUndone` | core/disklayout/fit.go:333-356 | A partition off its boundary, asked to be grown and realigned, is planned as it was and flagged as grown |
| `FitAlign.UnitIs` | core/disklayout/fit.go:191-194 | The alignment unit is a mebibyte, or a larger physical sector, in sectors |
| `FitAlign.StartsOnBoundary` | core/disklayout/fit.go:332-356 | In bytes, for every applicable plan: a partition that does not start where it was captured starts on the boundary, through every shrink pass, packing and realignment, and after a realignment that fits every non-logical one does |
| `FitAlign.BehindLast` | core/disklayout/fit.go:174-189 | The last usable sector is on the drive if and only if the backup length does not wrap, and leaves room for the backup table |
| `FitAlign.EndsOnDrive` | core/disklayout/fit.go:363-376 | In bytes, for every applicable plan: each partition ends on the drive, on a GPT drive with the captured backup table still fitting behind it |
| `FitRefusals.StuckExactly` | core/disklayout/fit.go:293-316 | A shrinking pass comes to nothing if and only if every partition is at its floor |
| `FitRefusals.ShrinkExplained` | core/disklayout/fit.go:264-331 | For every layout too large for its target: shrinking succeeds if and only if the tail ends in time with no logical partition behind a shrunk one; where it fails a logical one is, or all are at their floors, or all sixteen passes were made |
| `FitRefusals.RigidLayout` | core/disklayout/fit.go:264-331 | Where nothing can give, the target is accepted if and only if the last partition ends by the last usable sector, whatever gaps lie before it |
| `FitRefusals.PassTidy` | core/disklayout/fit.go:284-331 | After a pass each partition has its size less what it gave, at the place that follows from the sizes before it |
| `FitRefusals.PassProgress` | core/disklayout/fit.go:284-331 | A pass for whole alignment units ends the overrun or leaves one partition fewer that can give |
| `FitRefusals.AcceptedExactly` | core/disklayout/fit.go:152-377 | A layout on boundaries with fewer than sixteen partitions that can give is accepted on a smaller target if and only if the tail would end in time with all of them at their floors |
| `FitRefusals.FitsExactly` | core/disklayout/fit.go:264-283 | A plan by the planner's own rules exists if and only if the layout at its floors and without gaps ends in time |
| `FitRefusals.RightlyRefused` | core/disklayout/fit.go:284-330 | A false promise made exact: a smaller target is refused only when no plan exists, if and only if the layout at its floors ends in time with the gaps kept, or does not even without them |
| `FitRefusals.GapNotClosed` | core/disklayout/fit.go:314-330 | A layout and a target that is refused, with a plan by the planner's own rules that would fit it |
| `FitPlan.PlanMeaning` | core/disklayout/fit.go:121-147 | What fair means on real extents: unflagged partitions keep their size, only non-logical data partitions resize, none flagged as grown is smaller than it was, no shrink goes below a known minimum, logical ones stay put |
| `FitPlan.MinimumIsEnough` | core/disklayout/fit.go:276-283 | A known minimum rounded to sectors and alignment is enough bytes |
| `GptLayout.ReadParts` | core/disklayout/gpt.go:202-227 | The used slots in order, or refusal at the first that is out of bounds by the source's wrapping arithmetic |
| `GptLayout.OnDiskSensible` | core/disklayout/gpt.go:202-227 | A partition that lies on the disk is never refused |
| `GptLayout.SensibleExactly` | core/disklayout/gpt.go:202-227 | An accepted partition lies on the disk if and only if its end fits a signed 64-bit number |
| `GptLayout.ParsedOnDisk` | core/disklayout/gpt.go:127-243 | The same for every partition of every disk that parses |
| `GptLayout.FarPartSensible` | core/disklayout/gpt.go:202-227 | With 512-byte sectors partitions at sectors 2^54 and 2^55 pass the bounds test of the smallest disk |
| `GptLayout.ParseWithSector` | core/disklayout/gpt.go:127-243 | Parses exactly the disks whose signatures, sizes and both checksums hold |
| `GptFit.SlotOfAll` | core/disklayout/fit.go:458-466 | Each slot is the captured one with the first and last sector of its move, if any |
| `GptFit.PartsOfAll` | core/disklayout/fit.go:458-466 | The rewritten array reads as the captured partitions moved |
| `GptFit.PatchedFields` | core/disklayout/fit.go:471-475 | The new primary header differs in exactly four fields |
| `GptFit.SealedSound` | core/disklayout/gpt.go:150-165 | A header sealed with its checksum passes the parser's test |
| `GptFit.ApplyFit` | core/disklayout/fit.go:432-486 | For regions whose entry array lies behind the header: succeeds if and only if the header can be read, its entry array is all there, every move names a slot and the backup region has the captured length; the regions are then the captured ones rewritten |
| `GptFit.FittedDiskParses` | core/disklayout/gpt.go:127-243 | A disk carrying the rewritten primary parses to the fitted layout |
| `GptFit.FitRoundTrip` | core/disklayout/fit.go:432-486 | Writing both regions and parsing gives the captured partitions at exactly the planned extents, all else unchanged, and a backup table that tells of itself and reads as the same partitions |
| `GptFit.BackupLands` | core/disklayout/fit.go:467-485 | Of the regions ApplyFit makes, the backup header lands on the last sector if and only if the entry array is a whole number of sectors |
| `GptFit.FittedBackup` | core/disklayout/gpt.go:261-286 | With a whole number of entry sectors the backup header verifies |
| `GptFit.BackupHolds` | core/disklayout/fit.go:475-485 | Of the regions ApplyFit makes, the backup's array is the primary's and reads as the moved partitions, and its header names its own sector, sector 1, the array's place, count, size and checksum and the last usable sector |
| `FitDisk.PlanFitsOn` | core/disklayout/fit.go:152-377 | Of an accepted plan for a captured disk: its moves, slots and both tables fit the target if and only if the captured primary region is no longer than the target |
| `FitDisk.PlannedRoundTrip` | core/disklayout/fit.go:152-486 | Planned, rewritten, both regions written to a disk of the target's size and parsed: each captured partition at exactly its planned extents, all else as it was, and right behind the last usable sector a backup table of the same partitions |
| `FitDisk.BackupRegion` | core/disklayout/fit.go:467-485 | The backup region of an accepted plan begins right behind the last usable sector and ends on the target |
| `FitDisk.CarriedOutExactly` | core/disklayout/fit.go:152-486 | A false promise made exact: there is a disk with both regions of an accepted plan on it if and only if the primary region is no longer than the target and agrees with the backup region where they overlap |
| `FitDisk.CarriedOutWhen` | core/disklayout/fit.go:152-486 | There is one when the captured primary region ends by the last usable sector, or its entry array is where the backup's goes |
| `FitDisk.PlanSucceeds` | core/disklayout/fit.go:152-486 | For a capture whose tables end before its usable area and a plan that respects it, there is a disk on which the plan is carried out and parses back, and no partition touches either table |
| `FitDisk.PlanAndApply` | core/disklayout/fit.go:152-486 | Planning and applying one after the other: whatever plan is accepted is applied, as planned |
| `SampleDisks.SampleParses` | core/disklayout/gpt.go:127-243 | Disks made to order, of any size with the array and one partition anywhere, parse to what they were made from |
| `SampleDisks.FarPartParses` | core/disklayout/gpt.go:202-227 | Two disks of three sectors that parse, with a partition at sector 2^54 and 2^55 |
| `SampleDisks.FarBackupAside` | core/disklayout/fit.go:467-485 | For a disk with an array of a quarter of a sector the backup header lands on the last sector of no target |
| `SampleDisks.FarArrayAccepted` | core/disklayout/fit.go:152-377 | For a disk with its array 1 GiB in, PlanFit accepts a target of 512 MiB; no disk of that size has both regions on it |
| `SampleDisks.RegionsCollide` | core/disklayout/fit.go:152-486 | For the same disk PlanFit accepts a target the array does lie on; still no disk of that size has both regions on it |
| `ImageFiles.DataRuns` | diskimage/image.go:157-187 | The runs hold every non-zero byte, and every page they touch has one |
| `ImageFiles.AllLaid` | diskimage/image.go:157-187 | Storing only those runs over zeros is storing everything |
| `ImageFiles.WrittenStays` | diskimage/image.go:157-187 | After writes to disjoint ranges each written byte is where it was written |
| `ImageFiles.FreshIsZero` | diskimage/image.go:157-187 | Where nothing was written there are zeros |
| `ImageFiles.WriteHasUnits` | diskimage/image.go:157-187 | What any of several disjoint writes puts data in is a block that holds data at the end |
| `Qcow2Writer.Writer.constructor` | diskimage/qcow2.go:38-55 | A new image reads as zeros |
| `Qcow2Writer.Measures` | diskimage/qcow2.go:38-55 | Tables just cover the disk, and the clusters behind the header just hold the first-level table |
| `Qcow2Writer.Writer.AllocCluster` | diskimage/qcow2.go:76-80 | Hands out the next cluster |
| `Qcow2Writer.Writer.Provide` | diskimage/qcow2.go:95-120 | Gives a guest cluster a table and a file cluster no other has, without changing the disk |
| `Qcow2Writer.Writer.WriteRun` | diskimage/qcow2.go:95-120 | Changes exactly the given range of the disk |
| `Qcow2Writer.Writer.WriteAt` | diskimage/qcow2.go:82-93 | Refuses exactly out-of-bounds writes; over zeros it is a full write though zero runs are skipped; only clusters that get data are allocated |
| `Qcow2Finish.EncodeTable` | diskimage/qcow2.go:156-174 | A table cluster holding each entry big-endian and zeros behind |
| `Qcow2Finish.SizeRefcounts` | diskimage/qcow2.go:175-187 | The sizing loop ends, at the least sizes that count themselves |
| `Qcow2Finish.WriteRefcounts` | diskimage/qcow2.go:189-207 | Refcount 1 for each cluster of the file and none past its end, everything else untouched |
| `Qcow2Finish.Finish` | diskimage/qcow2.go:154-212 | The finished file holds header, tables, data and refcounts of the disk written |
| `Qcow2Reader.ReadRefcounts` | diskimage/reader.go:292-318 | Exactly the non-zero counts of the refcount blocks, or a block that is missing |
| `Qcow2Reader.Open` | diskimage/reader.go:245-320 | Opens what is readable, refuses what is not |
| `Qcow2Reader.ReadAt` | diskimage/reader.go:326-382 | Each byte as two-level lookup defines it |
| `Qcow2Reader.OffsetMask` | diskimage/reader.go:326-357 | A table entry's offset is its bits 9 to 55, whatever the others are |
| `Qcow2Image.OffsetReadable` | diskimage/reader.go:326-357 | A cluster offset survives in a table entry if and only if it is below 2^56 |
| `Qcow2Image.ImageOpens` | diskimage/reader.go:245-320 | Every finished image opens with the writer's table and refcounts of exactly 1 |
| `Qcow2Image.ImageReads` | diskimage/reader.go:359-382 | The reader returns each byte of the disk the writer was given |
| `Qcow2Check.CheckRefcounts` | diskimage/reader.go:387-441 | Succeeds if and only if every cluster of the file is referenced once with refcount 1 and none is counted past the end |
| `Qcow2Check.CountTables` | diskimage/reader.go:387-425 | The walk meets each table and data cluster exactly once |
| `Qcow2Check.CountBlocks` | diskimage/reader.go:387-425 | The walk meets each refcount block exactly once |
| `Qcow2Check.ImageIsSound` | diskimage/reader.go:387-441 | The check succeeds on every finished image |
| `Qcow2Check.ExportAndRead` | diskimage/qcow2.go:82-212 | Writing disjoint ranges, finishing, opening and reading any range gives each written byte and zero elsewhere, with refcounts that check out, for every disk whose finished file keeps within 2^56 bytes |
| `Qcow2Check.AllocatedExactly` | diskimage/qcow2.go:95-120 | The clusters allocated are exactly those with data and the tables for them |
| `VhdWriter.RoomExactly` | diskimage/vhd.go:238-246 | A false promise made exact: cutting block sectors to 32 bits loses nothing if and only if there is room for the blocks allocated |
| `VhdWriter.Overwritten` | diskimage/vhd.go:238-246 | Without room, some allocated block's entry reads as unallocated or leads onto the tables or the first block |
| `VhdWriter.RoomSizes` | diskimage/vhd.go:160-246 | 2 TiB full of data have no room; 3 TiB with a million blocks of data have |
| `VhdWriter.MarkSectors` | diskimage/vhd.go:251-259 | Marks exactly the sectors touched and keeps the others |
| `VhdWriter.MarkedInNumbers` | diskimage/vhd.go:251-259 | Sector s of a block is the bit of weight 2^(7 - s % 8) of byte s / 8 of its bitmap |
| `VhdWriter.MarkedFirst` | diskimage/vhd.go:258 | Marking sector s in an empty byte makes it 128, 64, .. or 1 |
| `VhdWriter.Measures` | diskimage/vhd.go:160-179 | Blocks just cover the disk, table sectors just hold the entries, and the first block is right behind the table |
| `VhdWriter.SumSplit` | diskimage/vhd.go:61-67 | The checksum counts every byte once, wherever the bytes are split |
| `VhdWriter.WriteBlock` | diskimage/vhd.go:246-262 | Data and bitmap together change that part of the disk and no other |
| `VhdWriter.EncodeBat` | diskimage/vhd.go:206-213 | Each entry big-endian, padded to whole sectors |
| `VhdWriter.Writer.constructor` | diskimage/vhd.go:160-204 | A new image reads as zeros |
| `VhdWriter.Writer.Provide` | diskimage/vhd.go:238-245 | Gives a block a place no other has, with an empty bitmap, as long as there is room |
| `VhdWriter.Writer.WriteRun` | diskimage/vhd.go:230-267 | Changes exactly the given range of the disk |
| `VhdWriter.Writer.WriteAt` | diskimage/vhd.go:215-226 | Refuses exactly out-of-bounds writes; over zeros it is a full write though zero runs are skipped; only blocks that get data are allocated |
| `VhdWriter.Writer.Finish` | diskimage/vhd.go:291-311 | With room for its blocks, the finished file holds both footers, header, table and blocks of the disk written |
| `VhdReader.Open` | diskimage/reader.go:104-181 | Opens what is readable, refuses what is not |
| `VhdReader.ReadBlock` | diskimage/reader.go:186-232 | Sector by sector: stored where marked, zero where not |
| `VhdReader.ReadAt` | diskimage/reader.go:186-232 | Each byte as table and bitmap define it |
| `VhdImage.ImageOpens` | diskimage/reader.go:104-181 | Every finished image opens with the writer's table |
| `VhdImage.ImageReads` | diskimage/reader.go:186-232 | The reader returns each byte of the disk the writer was given |
| `VhdImage.ExportAndRead` | diskimage/vhd.go:215-311 | Writing disjoint ranges, finishing, opening and reading any range gives each written byte and zero elsewhere, however large the disk as long as the blocks with data have room |
| `VhdImage.FooterSays` | diskimage/vhd.go:69-95 | The footer fields no reader looks at, byte for byte: features, versions, time, creator, host, size, geometry, id, and zeros |
| `VhdImage.HeaderSays` | diskimage/vhd.go:187-206 | The dynamic header has no next structure, version 1.0, and zeros behind its checksum |
| `DnmCodec.StrBack` | core/manifest/dnm.go:462-478 | A string reads back if and only if its length fits its length field |
| `DnmCodec.CountBack` | core/manifest/dnm.go:509-516 | A count reads back through the 16-bit escape if and only if it fits 32 bits |
| `DnmCodec.TimeBack` | core/manifest/dnm.go:518-526 | Every time reads back, the epoch and the zero time apart |
| `DnmCodec.FieldBack` | core/manifest/dnm.go:462-630 | Every field in range reads back, whatever follows it |
| `DnmCodec.RecordBack` | core/manifest/dnm.go:138-180 | Every record of fields in range reads back |
| `DnmCodec.MetadataBack` | core/manifest/dnm.go:184-314 | Metadata in range decodes to what was encoded |
| `DnmCodec.OldMetadataReads` | core/manifest/dnm.go:268-295 | Metadata that ends before the digest decodes with the later fields empty |
| `DnmCodec.OldFileReads` | core/manifest/dnm.go:442-455 | A file entry that ends before the inline data, or one byte later, decodes with none |
| `DnmCodec.FileBack` | core/manifest/dnm.go:337-456 | A file entry in range decodes to what was encoded |
| `DnmFile.EntryBack` | core/manifest/dnm_reader.go:193-201 | An entry record decodes to what was encoded, its flag byte 1 exactly when it is excluded |
| `DnmFile.EntriesBack` | core/manifest/dnm_reader.go:251-269 | The entries section reads back, whatever follows it |
| `DnmFile.CatalogBack` | core/manifest/dnm_reader.go:308-323 | The catalog reads back, whatever follows it |
| `DnmFile.SectionBack` | core/manifest/dnm.go:106-125 | A section index entry decodes to what was encoded |
| `DnmFile.Reserved` | core/manifest/dnm.go:76-116 | What the header and the section index reserve is zero |
| `DnmFile.OpensTo` | core/manifest/dnm_reader.go:31-100 | A file opens to the sections its index lists, wherever the place of the index is kept |
| `DnmFile.ClassicLoads` | core/manifest/dnm_writer.go:69-155 | The file writer's manifest loads as the backup it was written from |
| `DnmFile.StreamedLoads` | core/manifest/dnm_stream.go:72-116 | The streamed manifest loads as the same backup |
| `DnmWriter.WriteCatalog` | core/manifest/dnm_writer.go:102-115 | Length-prefixed records of the catalog in order |
| `DnmWriter.WriteEntries` | core/manifest/dnm_writer.go:162-207 | The entries in memory, or the sidecar as it stands, with the count |
| `DnmWriter.WriteDnm` | core/manifest/dnm_writer.go:69-155 | The classic layout of the backup, whether its entries came from memory or from a sidecar |
| `DnmWriter.Streamer.WriteEntry` | core/manifest/dnm_stream.go:45-66 | Nothing is lost or doubled even when the sink refuses; parts are at least a window long and the buffer stays below one |
| `DnmWriter.Streamer.Finish` | core/manifest/dnm_stream.go:72-116 | The parts sent are the streamed layout of the backup |
| `DnmWriter.StreamBackup` | core/manifest/dnm_stream.go:35-116 | The parts concatenate to the same file for every window |
| `DnmReader.Open` | core/manifest/dnm_reader.go:31-100 | Opens exactly the files whose header and index can be read, in either layout |
| `DnmReader.SectionReader.Refill` | core/manifest/dnm_ranged.go:142-160 | The next window, never past the section however much is served |
| `DnmReader.SectionReader.Read` | core/manifest/dnm_ranged.go:142-167 | The bytes of the section in order, at most one window held |
| `DnmReader.SectionReader.ReadFull` | core/manifest/dnm_ranged.go:142-167 | Exactly the bytes asked for, however many reads they take |
| `DnmReader.CatalogReader.Next` | core/manifest/dnm_reader.go:308-323 | The next record, or the end, or a record that cannot be read |
| `DnmReader.LoadCatalog` | core/manifest/dnm_reader.go:217-237 | All records of the catalog |
| `DnmReader.LoadEntries` | core/manifest/dnm_reader.go:252-269 | All records of the entries section |
| `DnmReader.Load` | core/manifest/manifest.go:559-584 | Metadata, catalog and entries of a file in either layout |
| `DnmReader.SaveAndLoad` | core/manifest/dnm_writer.go:35-155 | Saved or streamed with any window, a backup in range loads as it was |
| `DnmReader.LocateCatalog` | core/manifest/dnm_ranged.go:81-130 | Finds the last catalog section of the index as it is served, a last record cut short filled up with zeros; refuses one out of bounds or a header served short |
| `DnmReader.LocatedWhole` | core/manifest/dnm_ranged.go:113-130 | Served whole, or cut short within a last record that is not a catalog's, the index gives what opening the file gives |
| `DnmReader.CutCatalogEmpty` | core/manifest/dnm_ranged.go:117-124 | A catalog record cut short behind its type is taken for an empty catalog |
| `DnmReader.StreamCatalogRanged` | core/manifest/dnm_ranged.go:49-76 | Whatever the window and however little of the catalog the store serves at a time, the records visited are those of the section located, in order; a store that serves nothing ends it with an error |
| `DnmReader.VisitingReads` | core/manifest/dnm_ranged.go:66-76 | Visiting a readable catalog yields its files up to the one the visitor stops at |
| `DnmReader.RangedSeesCatalog` | core/manifest/dnm_ranged.go:49-130 | In either layout the ranged reader visits the catalog that was written |
| `DnmReader.RangedFindsCatalog` | core/manifest/dnm_ranged.go:81-130 | In either layout the section located is the written catalog's, however little of the index is served beyond its record |
| `Restore.Collect` | core/restore/restore_entries.go:63-100 | Excluded regions are zeroed and every other entry is looked up, or one is not indexed |
| `Restore.WriteChunks` | core/restore/restore_entries.go:101-139 | Written in pack order, every chunk ends up in its own region |
| `Restore.RestoreEntries` | core/restore/restore_entries.go:45-146 | A restore that reports success put every entry's bytes in place; it fails only when entries are missing or a chunk cannot be read back |
| `Restore.RestoredIsSource` | core/restore/restore_entries.go:45-146 | Entries that tile the stream, each with its own bytes in place, are the source |
| `Restore.SearchEntries` | core/manifest/entry_accessor.go:99-115 | The first entry that reaches beyond the offset |
| `Restore.SearchEntriesEnd` | core/manifest/entry_accessor.go:124-140 | The first entry that begins at or after the offset |
| `Restore.RestoreFile` | core/restore/filerestore.go:435-541 | Succeeds if and only if the range lies in the stream and every chunk it overlaps can be read, and then writes exactly that slice, for any alignment |
| `ExclusionMaps.Coalesce` | volume/reader.go:260-279 | Coalescing in place leaves ranges apart from each other that cover the same bytes |
| `ExclusionMaps.ExclusionMap.AddRange` | volume/reader.go:234-237 | Covers the new range and what was covered |
| `ExclusionMaps.ExclusionMap.EnsureSorted` | volume/reader.go:260-279 | Sorting and coalescing cover the same bytes |
| `ExclusionMaps.ExclusionMap.CoveredBytes` | volume/reader.go:247-254 | The number of bytes covered |
| `ExclusionMaps.ExclusionMap.IsExcluded` | volume/reader.go:308-315 | True if and only if the query meets a covered byte; for an empty query, if the bytes on both sides are covered |
| `ExclusionMaps.ExclusionMap.ZeroExcluded` | volume/reader.go:285-302 | Zeroes exactly the covered bytes of the buffer |
| `ExclusionMaps.ExcludedReader.Read` | volume/reader.go:345-352 | Delivers the masked stream |
| `ExclusionMaps.ExcludedReader.ReadPieces` | volume/reader.go:336-352 | However it is split into reads and wherever it starts, the masked stream is the same |

## Left out

- Goroutines, channels and progress reports of the pipeline: its chunks arrive in order.
- Compression, encryption and the chunk normalizer: a frame is its chunk.
- The periodic flush of the index buffer in the store loop: `HashIndexes.HashIndex.FlushDelta` shows it changes neither answers nor the durable copy.
- The byte encoding of segments and of delta files: both are sequences of records here.
- The cut of a segments file to a byte length: it is the list of kept segments.
- Messages, warnings and the wording of refusals; only whether something is refused.
- The policy rules that choose what forget keeps by tag, count or calendar period: the keeps are a parameter of `Pruning.ForgetAndPrune`.
- Dry runs, confirmation and byte statistics of prune and forget.
- Packing Bloom bits into 64-bit words and the filter's file.
- How a VHD's creation time, CHS geometry and id are chosen: they are parameters.
- Fixed VHD, VMDK and raw images, and images with other cluster or block sizes than the writers use.
- The MBR branch of ApplyFit.
- GUIDs and partition names as text: they stay the bytes of their fields.
- Volume-file restore by extents: only restore through the stream is modelled.
- The catalog sidecar of the manifest writer and the JSON manifest of older versions.
- bufio's own buffering in manifest readers, which passes bytes through.
- `DnmReader.StreamCatalogRanged`: section bounds past 63 bits fail when located here and at the first read in the source; both are errors.
- `VhdWriter.Writer.constructor`: sizes above zero in whole sectors; the source refuses others (diskimage/image.go:86-88, diskimage/vhd.go:161-163).
- `VhdReader.Open`: dynamic images with 2 MiB blocks, as the writer makes them.
- `Qcow2Reader.Open`: images with 64 KiB clusters, as the writer makes them.
- `Qcow2Check.ExportAndRead`: disks whose L1 table has fewer than 2^32 entries and whose finished file is at most 2^56 bytes, beyond which an entry loses its offset (`Qcow2Image.OffsetReadable`).
- `ExclusionMaps.ExclusionMap.AddRange`: ranges of positive length; both callers check for it (volumefs/volatile.go:93, volumefs/repoexclude_windows.go:44).
- `Restore.RestoreFile`: entries marked excluded carry the hash of no data, as the zero hash is.
- `BackupLoop.VerifyPrefix`: does not skip excluded entries, because the store loop writes none.
- `DnmReader.LocateCatalog`: a trailer served short, or an index served so short that a record begins beyond it: the source indexes out of range on both.
- `FitAlign.StartsOnBoundary`: sector sizes that divide a mebibyte, and boundaries that divide the range of sector numbers, as powers of two do.
- `GptFit.ApplyFit`: entry arrays that overlap the header or the boot sector, which the parser accepts (section 5.3.2 of the UEFI Specification puts them behind it).
- `GptFit.FitRoundTrip`: captures with such an array.
- `FitDisk.PlanFitsOn`: captures with such an array.
- `FitDisk.CarriedOutExactly`: captures with such an array.
- `FitDisk.CarriedOutWhen`: captures with such an array.
- `FitDisk.PlanSucceeds`: captures with such an array.
- `FitDisk.PlannedRoundTrip`: captures with such an array; the contents of partitions, which are written elsewhere.
- `FitDisk.PlanAndApply`: captures with such an array.
- `FitRefusals.RightlyRefused`: layouts with logical partitions, with starts off the alignment unit, with a minimum of zero, or with sixteen partitions or more that can give; of those `FitRefusals.ShrinkExplained` says what a refusal means.
- `Pruning.AnyCopySurvives`: entries that name frames of other hashes, which the dedup index never writes.
- `Retention.Select`: distinct backup ids and parents without cycles; with a cycle the source does not terminate.
