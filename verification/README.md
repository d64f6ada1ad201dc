# Verification of oxfs

A Dafny 4.11 model of oxfs, a FUSE file system over object stores, with proofs of what its
engines keep. `dafny verify dfyconfig.toml` checks everything.

## The model

**Posix data path.** A file's bytes live in slices: each write puts its pieces under fresh ids into
a write-back cache and appends them to the lists of their 64 MiB chunks; reading overlays the list;
compaction rewrites a list as one slice and deletes the old ones. The cache keeps slices in a dirty
set, an L1 that drops entries at will, a bounded L2 on disk, a backend that fails per call, and a
write-ahead log. Calls of the backend, the disk, the log and the flat store are numbered, and a constant
of each class says how the call of each number goes, so that contracts can say whose fault an error is.

- `Wal.dfy`, `SliceKey.dfy`, `DataEngine.dfy`: the log's bytes and parser, key printing, the store.
- `CacheModel.dfy` describes the cache as a transition system with one event per atomic effect;
  `TieredCache.dfy` is the class. Every method returns, as a ghost result, the events it performed
  and proves them legal, so that results about runs hold at every point inside a method, which is
  where crashes fall.
- `Overlay.dfy`, `System.dfy`, `SystemRuns.dfy` join cache and metadata into one system and prove the
  invariant, crash recovery and the meaning of files; `Vfs.dfy` is the class with read, write,
  compaction, flush and mount; `Restart.dfy` puts a new process over what a dead one left;
  `ConcurrentRead.dfy` reads that are not atomic; `FileHistory.dfy` relates
  file histories to POSIX byte arrays, and `SystemHistory.dfy` runs to file histories.

**Posix namespace.** `MetaModel.dfy` gives the redb tables and each operation as a function on them,
`RedbEngine.dfy` the class that is proved to compute these functions, `Namespace.dfy` the invariants
of all reachable tables, `Reachability.dfy` which entries can be reached from the root.
`SqliteModel.dfy` and `SqliteEngine.dfy` do the same for SQLite, statement by statement, `Simulation.dfy`
relates the two engines, `Attributes.dfy` says what attribute reads and lookups of both answer, and
`SqliteRuns.dfy` follows SQLite alone where it replaces targets in its own way.

**Flat mode.** `FlatBuffer.dfy` is the write buffer as a protocol of atomic steps, `FlatVfs.dfy` the
class with the same sections called one after the other, `FlatCache.dfy` the ETag-validated read
against writers that act between any two backend calls.

## Conditions the results need

The code establishes its promises under these conditions. They appear as preconditions, or as guards
of the transition systems; where a condition is exact, the lemma named says so.

- Writes, compactions and flushes of one cache do not overlap. `CacheModel.ClearIff` says when a flush
  that overlaps others may clear the log, and three lemmas beside it show the overlaps that lose data.
  A crash may fall anywhere.
- Reads overlap anything. They return what `ConcurrentRead` says, or an error; beside a flush also for a
  slice that nobody has lost (`CacheModel.LookupMissesIff`, `ConcurrentRead.MissIff`).
- The log is configured. Calls on it may fail, and a crash or a failing append leaves a torn tail, which
  replay leaves in place; a record appended behind one is misread (`WriteAheadLog.AppendSafeIffAligned`,
  `CacheModel.TornTailUncovers`). Reads, writes and compactions still do what they should, but crash
  recovery is promised only for a log that records were appended to whole and at record boundaries
  (`sound` in the model). The next successful clear makes it sound again. A log that cannot be read at
  mount is not replayed, and the next flush may clear it (`CacheModel.UnreadLogIff`).
- File histories stay below offset 2^58, where the chunk index fits `u32` (`Overlay.SharedIff`,
  `VirtualFs.FarWriteIff`).
- An L2 file is written whole or not at all, and reading an existing one succeeds. For L2 accounting
  the cache directory is empty at the start, and L2 writes that overlap, by reads, prefetches or a
  flush, are of different slices (`CacheModel.AccountedIff`) and fit together (`CacheModel.TwoFillsIff`,
  `CacheModel.ReservedIff`): the code checks the size before the write and counts it after.
- A rename goes to an existing directory outside the moved one, which the kernel ensures
  (`Namespace.PerformKeepsInvIff`).
- A flat handle is its path's only writer. Its PUTs land in the order of their snapshots, as they do
  with one flush at a time (`FlatBuffer.CleanHandleIff`), and the read of a first write answers what the
  object holds (`FlatBuffer.FirstReadIff`).
- Equal entity tags mean equal bytes (sections 8.8.3, 13.1.1 and 13.1.2 of RFC 9110).

## Where the code departs from what one expects

- Truncation changes only the size, so shrinking and growing again shows old bytes. A write that ends
  between its slices and its size update leaves bytes beyond the end, which a growth shows. A write of
  no bytes beyond the end moves the end. `FileHistory.HistoryAgreesIff` says exactly when the file is
  the POSIX byte array all the same.
- A removed directory keeps one link and its node is never forgotten.
- redb renames over a directory that is not empty, and what was in it is out of reach
  (`Reachability.RenameRootedIff`).
- Only SQLite refuses to replace a non-empty directory and only SQLite drops a replaced node at once
  (`Simulation.RenameAgreesIff`); the chunk rows of a node it drops stay for good
  (`SqliteRuns.RenameLeaksIff`, `SqliteRuns.LeakedForGood`).

## Model

| member | source | states |
|---|---|---|
| System.CrashRecovery | crates/oxfs-posix/src/cache.rs:126-169 | For every legal run (it may contain earlier crashes), every prefix of it, every crash there (a log append may be torn at any byte), and every recovery that ends mounted (mounting is one for every log that records were appended to whole and at record boundaries): overlaying what the tiers then hold gives each file exactly the bytes its metadata had at the crash |
| Restart.WriteThenCrash | crates/oxfs-posix/src/vfs.rs:73-197 | On the classes: write, die with any torn append behind the log, construct the next process over the disks, mount, read. For every range below 2^58 and every state with a whole log, the bytes read are the bytes written; over a backend that works the read does not fail |
| Restart.Survive | crates/oxfs-posix/src/cache.rs:270-288 | Dying and mounting again over a log that can be read and replayed leaves the metadata and every byte of every file as they were |
| Restart.Reboot | crates/oxfs-posix/src/cache.rs:91-123 | A process constructed over the log (with whatever a torn append left behind it), the database, the cache directory and the backend of a dead one is in exactly the state that the crash event describes, for every torn append; memory is empty |
| CacheModel.CrashForgets | crates/oxfs-posix/src/cache.rs:98-123 | What follows a crash depends on log, L2 and backend alone: two processes that leave the same there have the same possible futures, event by event, whatever they had in memory |
| CacheModel.CrashMissesIff | crates/oxfs-posix/src/cache.rs:219-242 | Right behind a crash a look-up finds what L2 or else the backend has; a slice that only memory had is missed |
| CacheModel.CrashNeedsReplay | crates/oxfs-posix/src/cache.rs:244-288 | A write not yet flushed is gone behind a crash, the mount is not complete without its replay, and its log record brings the bytes back |
| System.CrashCovered | crates/oxfs-posix/src/cache.rs:262-288 | What a crash leaves covers every referenced slice: its bytes are in the backend or in the log, and no surviving copy (log, L2, backend) holds other bytes; for every crash of a log that was only ever appended to at record boundaries |
| System.ReachableSysInv | crates/oxfs-posix/src/vfs.rs:154-310 | The cache invariant, soundness of all chunk rows and write-once ids hold in every state of every run from a fresh file system, crashes included |
| System.WriteOnce | crates/oxfs-posix/src/redb_engine.rs:275-289 | Every referenced slice id is below the persistent counter, occurs once over all inodes and chunks, has the recorded length, and stays inside its chunk |
| System.FreshInv | crates/oxfs-posix/src/redb_engine.rs:116-148 | A fresh file system satisfies the invariant and the L2 accounting |
| System.SysEventKeepsInv | crates/oxfs-posix/src/vfs.rs:154-310 | One atomic effect of cache or metadata keeps the system invariant |
| System.RunSysKeepsInv | crates/oxfs-posix/src/vfs.rs:154-310 | Any legal run keeps the system invariant |
| System.QuietRunKeepsContents | crates/oxfs-posix/src/cache.rs:219-288 | Flushes (failing in part or not), evictions, L2 fills, deletes of unreferenced ids, crashes, replays, namespace operations and compactions change no byte of any file |
| System.WriteSliceContent | crates/oxfs-posix/src/vfs.rs:178-183 | Appending a slice changes exactly its own window of one file |
| System.TiersHoldContents | crates/oxfs-posix/src/cache.rs:219-242 | In a running system the tiers, looked up in read order, give every file its contents |
| System.TiersIsLookup | crates/oxfs-posix/src/cache.rs:219-242 | The union of the tiers is the lookup order dirty, L1, L2, backend |
| System.BackendHoldsContents | crates/oxfs-posix/src/vfs.rs:307-309 | With nothing left to flush the backend alone gives every file its contents |
| SystemRuns.NeverDiffers | crates/oxfs-posix/src/vfs.rs:262-310 | After every prefix of a run that writes and drops no file, all files read as before it; this covers each intermediate point of a compaction |
| SystemRuns.CacheRun | crates/oxfs-posix/src/vfs.rs:173-176 | A run of the cache is a run of the whole system if it appends only issued ids and deletes only unreferenced ones |
| VirtualFs.Vfs.Read | crates/oxfs-posix/src/vfs.rs:103-152 | Errors for a missing node and a non-regular one; otherwise exactly the file's bytes from offset to the smaller of offset+size and the file size, holes as zeros. It fails only if it called the backend and the last call failed (Backend), or found nothing while a flush has the slice in hand (NotFound with that slice's key), for a slice of a row in the range that no tier of the cache has. So it succeeds, and calls nobody, if all slices of the range are dirty or in L2, or all dirty or in L1; and succeeds over a backend that works during the call with no flush under way. L1 entries go only by evictions at its own inserts |
| VirtualFs.NotGivenUp | crates/oxfs-posix/src/vfs.rs:135-135 | Reads of slices that are all dirty or in L2, or all dirty or in L1, or over a working backend with no flush under way, do not fail: under any of the three no failure can be accounted for |
| ConcurrentRead.ReadBesideCompaction | crates/oxfs-posix/src/vfs.rs:103-152 | A read of any range whose row reads and slice look-ups happen at any instants of a run of flushes, evictions, compactions, namespace operations and other reads, of this file or others, and miss nothing: each byte is that of the file, before and after |
| ConcurrentRead.ReadBesideAnything | crates/oxfs-posix/src/vfs.rs:103-152 | Beside writes and everything else: each byte returned was in the file at some instant during the read |
| ConcurrentRead.ChunkReadIsContent | crates/oxfs-posix/src/vfs.rs:127-147 | One chunk, its slices looked up one after the other at any later instants: the bytes the chunk had when its row was read, though its slices be compacted away and deleted meanwhile |
| ConcurrentRead.AnswerIsTruth | crates/oxfs-posix/src/cache.rs:219-242 | Look-ups of dirty set, L1, L2 and backend at four instants of any run find the bytes written or nothing |
| ConcurrentRead.MissIff | crates/oxfs-posix/src/cache.rs:219-242 | A slice that stays live is missed by such look-ups exactly if a flush had it in hand when the dirty set was looked into, the backend had not got it when asked, and each cached copy was gone when looked for |
| ConcurrentRead.MissedThoughHeld | crates/oxfs-posix/src/cache.rs:151-242 | It happens to a slice that some tier of the cache has at every single instant of the read: it is in L1 and in a flush when the dirty set is looked into, the PUT fails and the slice is dirty again, L1 drops it |
| ConcurrentRead.AnswerAtOnce | crates/oxfs-posix/src/cache.rs:219-242 | Four look-ups at one instant are the look-up of the cache model |
| VirtualFs.Vfs.OverlayChunk | crates/oxfs-posix/src/vfs.rs:129-147 | The windowed overlay of a chunk equals the full overlay at every offset of the window; it fails only for a slice of the row that the backend refused |
| VirtualFs.Vfs.ReadCached | crates/oxfs-posix/src/vfs.rs:135-135 | A live slice reads as the bytes written to it; it fails only if no tier has the slice and its one call of the backend failed, or found nothing while a flush has the slice in hand; a slice some tier has is read without a call |
| VirtualFs.Vfs.Write | crates/oxfs-posix/src/vfs.rs:154-197 | On any log, appends failing or not, and at any offset: every byte of the file is the old one, or the written one at offsets equal to it modulo 2^58; below 2^58 that is the old file under the data, with size the maximum of old size and end. Every state in between is the old file under a prefix of the data that ends at a piece, with the old size. Other files are as before, the inode is marked dirty, and a log whole before is whole after if its appends succeed |
| VirtualFs.Vfs.WritePieces | crates/oxfs-posix/src/vfs.rs:163-187 | The loop ends with exactly the data laid over the file, size not yet moved, having passed only through prefixes that end at a piece |
| VirtualFs.FarWriteIff | crates/oxfs-posix/src/vfs.rs:167-167 | A write that reaches beyond 2^58 does what it should exactly when its bytes there equal those below 2^58 that the cast to u32 folds them on |
| VirtualFs.TornIsCut | crates/oxfs-posix/src/vfs.rs:178-194 | A state inside a write is the file after a write cut short at the end of a piece, with the size not moved, and all other files untouched |
| VirtualFs.CrashedWrite | crates/oxfs-posix/src/vfs.rs:183-194 | A process that dies at any point inside a write, and mounts again by any recovery, has cut that write short at the end of a piece |
| VirtualFs.CutHappens | crates/oxfs-posix/src/vfs.rs:183-194 | Such cuts do occur: from every running state a legal run stores a piece and stops before the size moves |
| VirtualFs.Vfs.WritePiece | crates/oxfs-posix/src/vfs.rs:167-187 | One piece under a fresh id overlays exactly its bytes, at any offset and on any log; before its last effect nothing of it shows |
| VirtualFs.Vfs.SetSize | crates/oxfs-posix/src/vfs.rs:199-201 | Only the size changes; bytes beyond a smaller size stay stored |
| VirtualFs.Vfs.CompactAndFlush | crates/oxfs-posix/src/vfs.rs:262-310 | On every outcome all files read as before; it fails only if some backend call it made failed. On success: at most one slice per chunk of the inode, replaced slices are no longer live, the backend alone holds all files of all inodes, and the log is empty if clearing it works. If all its backend calls work, the replaced slices are gone from the backend too. Rows of other inodes are untouched and no slice leaves its chunk |
| VirtualFs.Vfs.CompactRows | crates/oxfs-posix/src/vfs.rs:268-305 | Every row with two or more slices becomes a row of one, its old ids never become live again, nor, if the backend works, dirty or stored; other inodes' rows stay, the counter moves by at most one id per row, and it fails only with a backend call |
| VirtualFs.Vfs.CompactChunk | crates/oxfs-posix/src/vfs.rs:273-304 | Merge, swap, delete: legal at each step because the merged slice reads like the row and the row's ids occur nowhere else; a failed read leaves the row as it was; if the backend works no tier and no object of the old slices is left to flush or to find there |
| VirtualFs.Vfs.MergeSlices | crates/oxfs-posix/src/vfs.rs:273-284 | The merged buffer is as long as the furthest slice end and equals the overlay at every offset |
| VirtualFs.Vfs.SwapRow | crates/oxfs-posix/src/vfs.rs:286-299 | The row becomes one fresh slice that reads the same, and no old slice is referenced any more |
| VirtualFs.Vfs.DeleteSlices | crates/oxfs-posix/src/vfs.rs:301-304 | Deleting unreferenced slices takes them out of the dirty set, and out of the backend if its calls work, and changes no file |
| VirtualFs.Vfs.Flush | crates/oxfs-posix/src/vfs.rs:252-255 | One backend call per dirty slice, and success exactly if none of them failed. On success the backend holds every file, and the log is empty, hence whole, whatever had been appended to it, unless clearing it fails, which leaves it as it was |
| VirtualFs.Vfs.Init | crates/oxfs-posix/src/vfs.rs:73-77 | Mounting over what a crash left is a recovery if the log can be read, holds no misread record and has every live slice the backend lacks: each logged slice is put once and ends stored or dirty, all stored exactly if no PUT failed; a log that cannot be read changes nothing, and the file system is not recovered |
| VirtualFs.MergedReadsSame | crates/oxfs-posix/src/vfs.rs:273-296 | The merged slice overlays like the slice list it replaces, at every offset, also beyond its end |
| VirtualFs.OldIdsFreed | crates/oxfs-posix/src/vfs.rs:297-304 | Because ids occur once, swapping a row leaves its old ids unreferenced everywhere |
| VirtualFs.StayDead | crates/oxfs-posix/src/vfs.rs:286-304 | Ids compacted away never come back, since later ids are higher |
| VirtualFs.InPiece | crates/oxfs-posix/src/vfs.rs:167-171 | A byte lies in a piece, modulo 2^58, exactly when its chunk index and chunk offset say so |
| Overlay.SharedIff | crates/oxfs-posix/src/vfs.rs:120-121 | Two offsets share chunk index and chunk offset exactly when they differ by a multiple of 2^58 |
| Overlay.ChunkOf | crates/oxfs-posix/src/vfs.rs:120-121 | Chunk k, for k below 2^32, is the 64 MiB from 67108864 k on |
| Overlay.Locate | crates/oxfs-posix/src/vfs.rs:167-168 | Below 2^58 chunk index and chunk offset locate a byte uniquely |
| Overlay.DistanceFrom | crates/oxfs-posix/src/vfs.rs:167-168 | Distances modulo 2^58 add up from piece to piece |
| Overlay.OffsetsAlias | crates/oxfs-posix/src/vfs.rs:167-167 | Offsets 2^58 apart read the same bytes, because of the cast to u32 |
| Overlay.OverlayAgree | crates/oxfs-posix/src/vfs.rs:134-145 | The overlay depends only on the bytes of the listed ids |
| Overlay.OverlayBeyond | crates/oxfs-posix/src/vfs.rs:132-145 | Beyond every slice the overlay is zero |
| FileHistory.HistoryIsPosix | crates/oxfs-posix/src/vfs.rs:103-197 | For every history of writes, writes cut short by a crash, resizes and anything that leaves the file alone: if no operation writes nothing beyond the end, shrinks over bytes that are not zero, or is cut short with such bytes beyond the end, the visible bytes after each operation are the byte array POSIX describes |
| FileHistory.HistoryAgreesIff | crates/oxfs-posix/src/vfs.rs:103-197 | Over any history at all, shrinks and crashed writes included: the visible bytes are the POSIX byte array after every operation exactly when each operation met zeros in the gap it exposed and none wrote nothing beyond the end |
| FileHistory.StepAgreesIff | crates/oxfs-posix/src/vfs.rs:189-194 | A write, cut write or resize does what POSIX says exactly when the gap it exposes holds zeros and, if it writes no bytes, it does not lie beyond the end; for any stored contents |
| FileHistory.ZeroTailIff | crates/oxfs-posix/src/vfs.rs:183-194 | Bytes beyond the end stay zero exactly under every operation but a shrink over bytes that are not zero and a write cut short after landing such bytes beyond the end |
| FileHistory.ShrinkThenGrowExposes | crates/oxfs-posix/src/redb_engine.rs:300-300 | Shrink then grow shows an old byte where POSIX shows zero |
| FileHistory.CutThenGrowExposes | crates/oxfs-posix/src/vfs.rs:183-194 | A write cut before its size update, then a growth: the landed byte shows where POSIX shows zero |
| FileHistory.EmptyWriteGrows | crates/oxfs-posix/src/vfs.rs:189-194 | A write of no bytes at offset 5 of an empty file makes five zeros where POSIX keeps the file empty |
| FileHistory.NewFileIsEmpty | crates/oxfs-posix/src/redb_engine.rs:229-262 | A created file has size zero and reads zero everywhere, whatever existed before |
| SystemHistory.EventDoes | crates/oxfs-posix/src/vfs.rs:103-310 | Every legal event of the system cuts a write into a file that stays, resizes it, or leaves it alone: which, is determined by the event |
| SystemHistory.RunIsHistory | crates/oxfs-posix/src/vfs.rs:103-310 | So every legal run, crashes and recoveries included, is a history of each file that stays through it |
| CacheModel.RefinesMap | crates/oxfs-posix/src/cache.rs:217-288 | After any run, a write of an id, and any run behind it, a lookup yields the bytes written or nothing, and yields them if the id is live and no flush is under way |
| CacheModel.LookupMissesIff | crates/oxfs-posix/src/cache.rs:219-242 | At one instant a live slice is missed exactly while a flush has it in hand, not in the backend yet, and no tier has a copy |
| CacheModel.PromotionDrops | crates/oxfs-posix/src/cache.rs:231-235 | Held slices may be missed all the same: reading one from L2 puts it into L1, which may drop the next slice of the read if only L1 had it |
| CacheModel.FlushHidesSlice | crates/oxfs-posix/src/cache.rs:126-146 | A write, an eviction and the drain of a flush lead there from any running state |
| CacheModel.EventKeepsInv | crates/oxfs-posix/src/cache.rs:126-288 | Each atomic effect keeps: no tier and no pending L2 write holds foreign bytes, what the backend lacks will be flushed, and as long as the log is sound no record is foreign and what the backend lacks is logged |
| CacheModel.RunKeepsInv | crates/oxfs-posix/src/cache.rs:126-288 | The same over every legal run |
| CacheModel.TruthIsForever | crates/oxfs-posix/src/cache.rs:244-252 | Ids are written once: what an id holds never changes in any run |
| CacheModel.QuietKeepsContents | crates/oxfs-posix/src/cache.rs:219-242 | Reads, prefetches, flushes, evictions and replays never change which ids are live or what they hold |
| CacheModel.ClearIff | crates/oxfs-posix/src/cache.rs:262-268 | Clearing the log at any moment keeps everything durable exactly when each live slice that is dirty or being flushed is already in the backend |
| CacheModel.ClearInsideWriteIff | crates/oxfs-posix/src/cache.rs:244-268 | Clearing it between the log record and the dirty entry of a write does so exactly when, besides, the backend has the slice of that write |
| CacheModel.ClearInsideWriteUncovers | crates/oxfs-posix/src/cache.rs:244-268 | It never has: a flush that clears the log inside a write leaves the slice to memory alone |
| CacheModel.ClearBehindWriteUncovers | crates/oxfs-posix/src/cache.rs:262-268 | A write completed between the drain and the clear of a flush is left to memory alone |
| CacheModel.ClearBesideFlushUncovers | crates/oxfs-posix/src/cache.rs:132-134 | A second flush, finding nothing dirty, clears the log while the first still has slices to put |
| CacheModel.TornTailUncovers | crates/oxfs-posix/src/cache.rs:244-248 | Behind one stray byte of a torn record every write of fewer than 2^24 bytes is held by nothing durable until the next flush |
| CacheModel.UnreadLogIff | crates/oxfs-posix/src/cache.rs:270-278 | If the log could not be read at mount, clearing it with the next flush is harmless exactly when the backend has every live slice by then |
| CacheModel.AccountedIff | crates/oxfs-posix/src/cache.rs:192-214 | With the size check and the counted write as two effects that anything may come between: disk_used stays the sum of the L2 file lengths and within the bound exactly under writes of ids without a file (unless empty) that still fit when they are counted, and restarts over empty files |
| CacheModel.TwoFillsIff | crates/oxfs-posix/src/cache.rs:197-203 | Two L2 writes of different slices that each pass the check before either is counted exceed the bound exactly when they do not fit together |
| CacheModel.ReservedIff | crates/oxfs-posix/src/cache.rs:197-203 | Everything that passed its check goes on fitting exactly if each check had counted what was pending |
| CacheModel.OverlappingMissesMiscount | crates/oxfs-posix/src/cache.rs:231-241 | Two overlapping misses of one slice, by a read and a prefetch say, count its length twice |
| CacheModel.NoClamp | crates/oxfs-posix/src/cache.rs:206-214 | While the accounting holds the min in disk_delete never clamps |
| CacheModel.RestartAccounting | crates/oxfs-posix/src/cache.rs:112-123 | A restart sets disk_used to zero: the accounting survives exactly when all L2 files are empty |
| TieredCaches.TieredCache.constructor | crates/oxfs-posix/src/cache.rs:91-123 | A process starts over what survived with empty memory; an empty cache directory is accounted for |
| TieredCaches.TieredCache.L1Insert | crates/oxfs-posix/src/cache.rs:98-98 | The entry is in L1, but for what L1 drops at this insert; nothing else changes |
| TieredCaches.TieredCache.DiskRead | crates/oxfs-posix/src/cache.rs:187-190 | The L2 file under the id's path is the id's slice, if a cache directory is configured and has one |
| TieredCaches.TieredCache.DiskWrite | crates/oxfs-posix/src/cache.rs:192-204 | Under the id's path, in two effects: the size check, and then the file written and counted; it is tried exactly if a cache directory is there and the bytes fit, and given up exactly if the disk fails then; no other id, and nothing but L2 and its counter, changes |
| TieredCaches.TieredCache.DiskDelete | crates/oxfs-posix/src/cache.rs:206-214 | The L2 copy, if there is one, and its share of the counter go together, or both stay exactly if the disk fails |
| TieredCaches.TieredCache.ReadSlice | crates/oxfs-posix/src/cache.rs:219-242 | Also with a flush under way: the first tier in lookup order answers with the bytes the id was written with. An id some tier has is answered without a call of the backend; any other with exactly one, whose answer it is. What L2 answers goes to L1, what the backend answers to L1 and, if it fits, to L2; an error changes nothing; a live id is reported missing only if the flush has it in hand; no contents, dirty data or log change |
| TieredCaches.TieredCache.WriteSlice | crates/oxfs-posix/src/cache.rs:244-252 | On any log, the append failing or not: the id becomes live with these bytes and dirty; the log gains what reached it, stays whole if it was and all of it did, and is marked unsound otherwise; backend and L2 untouched; legal at each effect |
| TieredCaches.TieredCache.DeleteSlice | crates/oxfs-posix/src/cache.rs:254-260 | The id is live no more and out of memory, out of L2 unless the disk fails, and out of the backend unless the one DELETE fails without effect; all other ids keep what they hold |
| TieredCaches.TieredCache.FlushDirtyInner | crates/oxfs-posix/src/cache.rs:126-169 | Each drained slice is put by exactly one call: in the backend with its bytes if the call took effect, dirty again exactly if it failed; Ok exactly if none failed, which is when the dirty set is empty |
| TieredCaches.TieredCache.PutAll | crates/oxfs-posix/src/cache.rs:138-146 | The parallel PUTs, one per slice, in some order, which is handed back: reported exactly those that did not fail, stored exactly those that took effect, and no other id changes |
| TieredCaches.TieredCache.PutOne | crates/oxfs-posix/src/cache.rs:141-143 | One PUT: Ok exactly if it does not fail; the bytes are stored exactly if it took effect |
| TieredCaches.TieredCache.SettleOne | crates/oxfs-posix/src/cache.rs:150-161 | A success leaves the flush, with an L2 copy if it fits and the disk works; a failure returns to the dirty set |
| TieredCaches.TieredCache.SettleAll | crates/oxfs-posix/src/cache.rs:148-166 | Exactly the drained slices whose PUT was not reported Ok are dirty again |
| TieredCaches.TieredCache.FlushDirty | crates/oxfs-posix/src/cache.rs:262-268 | One PUT per dirty slice, Ok exactly if none failed, those that failed dirty again, none lost. On Ok every live id is in the backend with its bytes, and the log is empty and sound again unless clearing it failed, which leaves it as it was; on error the log is untouched |
| TieredCaches.TieredCache.ReplayOne | crates/oxfs-posix/src/cache.rs:281-284 | A logged record enters L1 and the dirty set, and nothing else changes |
| TieredCaches.TieredCache.ReplayWal | crates/oxfs-posix/src/cache.rs:270-288 | If the log can be read and recovered from: ends mounted, each logged id put by exactly one call and then stored or dirty, the dirty set empty exactly if no PUT failed; live ids and their bytes as before, log untouched; if it cannot be read, nothing happens and the backend is not called |
| DataEngines.DataEngine.ReadSlice | crates/oxfs-posix/src/data.rs:39-46 | The bytes stored for the id, NotFound with its key exactly for an absent id, a backend error exactly if the call fails |
| DataEngines.DataEngine.WriteSlice | crates/oxfs-posix/src/data.rs:48-55 | Stored under its key, so that no other id changes; a call that fails has either taken effect or changed nothing |
| DataEngines.DataEngine.DeleteSlice | crates/oxfs-posix/src/data.rs:57-64 | Removed under its key, so that no other id changes; a call that fails has either taken effect or changed nothing |
| DataEngines.MirrorsPut | crates/oxfs-posix/src/cache.rs:180-204 | Storing one slice under its key or path changes no other slice, in the backend and in L2 |
| SliceKey.KeyInjective | crates/oxfs-posix/src/data.rs:31-34 | Distinct ids never share a key under the same base, also ids wider than the zero padding |
| SliceKey.PaddedValue | crates/oxfs-posix/src/data.rs:31-34 | Zero-padded decimal printing denotes the number printed, for every width |
| SliceKey.PaddedWidth | crates/oxfs-posix/src/data.rs:31-34 | A number below ten to the width is printed with exactly that many digits |
| SliceKey.KeyLayout | crates/oxfs-posix/src/data.rs:31-34 | Below ten million ids: the base, four digits that denote the id divided by 1000, and twelve that denote the id, between slashes |
| SliceKey.Decimal | crates/oxfs-posix/src/data.rs:31-34 | Decimal printing yields digits that denote the number |
| WriteAheadLog.RoundTrip | crates/oxfs-posix/src/wal.rs:31-74 | Any list of records, encoded and followed by any strict prefix of one more record, parses to exactly that list |
| WriteAheadLog.AppendSafeIffAligned | crates/oxfs-posix/src/wal.rs:31-38 | Every append is read back exactly when the log has no torn tail |
| WriteAheadLog.UnalignedLoses | crates/oxfs-posix/src/wal.rs:40-74 | For every log with a torn tail there is a record whose append is misread |
| WriteAheadLog.AppendAfterTornLosesRecord | crates/oxfs-posix/src/wal.rs:16-29 | For every record of fewer than 2^24 bytes there is a torn tail behind which it is lost: opening does not truncate |
| WriteAheadLog.ParseConcat | crates/oxfs-posix/src/wal.rs:40-74 | Parsing is compositional over a log that ends on a record boundary |
| WriteAheadLog.TornAppend | crates/oxfs-posix/src/wal.rs:31-38 | A crash inside an append loses no earlier record and adds none |
| WriteAheadLog.LeRoundTrip | crates/oxfs-posix/src/wal.rs:60-61 | Little-endian bytes give the number back, for every number that fits |
| WriteAheadLog.RecordLayout | crates/oxfs-posix/src/wal.rs:31-38 | A record byte by byte: eight bytes of id and four of length, least significant first, then the data |
| WriteAheadLog.EncodeParses | crates/oxfs-posix/src/wal.rs:31-38 | An encoded record is parsed back whole, whatever follows it |
| WriteAheadLog.Wal.Append | crates/oxfs-posix/src/wal.rs:31-38 | The file grows by the record's encoding, or by as much of it as a failing call wrote |
| WriteAheadLog.Wal.ReadAll | crates/oxfs-posix/src/wal.rs:40-74 | The scanning loop terminates and returns the parsed records, or the call fails |
| WriteAheadLog.Wal.Clear | crates/oxfs-posix/src/wal.rs:76-82 | The file is empty, or the call fails before or after emptying it |
| Namespace.ReachableInv | crates/oxfs-posix/src/redb_engine.rs:203-693 | In every table state reachable by allowed operations: link counts are exact, nothing dangles, rows belong to nodes, and the directories form a forest |
| Namespace.InitialInv | crates/oxfs-posix/src/redb_engine.rs:116-148 | The freshly initialised tables satisfy the invariant |
| Namespace.PerformKeepsInv | crates/oxfs-posix/src/redb_engine.rs:203-693 | Each operation keeps the invariant if a rename goes to an existing directory outside the moved subtree and slices are written to existing inodes |
| Namespace.PerformKeepsInvIff | crates/oxfs-posix/src/redb_engine.rs:203-693 | That condition is exact, operation by operation: without it the invariant is broken at once |
| Namespace.TargetsIff | crates/oxfs-posix/src/redb_engine.rs:203-263 | Every symlink keeps its target exactly as long as none is made by create |
| Namespace.CreateKeepsInv | crates/oxfs-posix/src/redb_engine.rs:203-263 | create keeps counts, kinds, ownership and forest, for every kind |
| Namespace.SymlinkKeepsInv | crates/oxfs-posix/src/redb_engine.rs:486-544 | symlink keeps the invariant; target rows belong to symlink nodes |
| Namespace.LinkKeepsInv | crates/oxfs-posix/src/redb_engine.rs:591-641 | link keeps the invariant; directories never get a second entry |
| Namespace.UnlinkKeepsInv | crates/oxfs-posix/src/redb_engine.rs:317-367 | unlink and rmdir keep the invariant |
| Namespace.RenameKeepsInv | crates/oxfs-posix/src/redb_engine.rs:369-469 | rename keeps the invariant exactly if its destination is a directory outside the moved one, with replaced targets of any kind, same or different parents, hard links to one inode, and a replaced directory that is the source's parent |
| Namespace.DetachCounts | crates/oxfs-posix/src/redb_engine.rs:347-363 | Removing an entry keeps all counts exact and no saturating subtraction saturates |
| Namespace.MoveCounts | crates/oxfs-posix/src/redb_engine.rs:423-465 | Moving an entry keeps all counts exact and no saturating subtraction saturates |
| Namespace.RenameCounts | crates/oxfs-posix/src/redb_engine.rs:386-465 | Both halves of a rename together, with no saturation in any aliasing case |
| Namespace.RenameForestIff | crates/oxfs-posix/src/redb_engine.rs:369-469 | Renaming a directory keeps the forest exactly when the destination lies outside the moved subtree |
| Namespace.RenameMakesCycle | crates/oxfs-posix/src/redb_engine.rs:423-428 | A rename into the moved subtree yields an explicit cycle |
| Namespace.MoveKeepsForest | crates/oxfs-posix/src/redb_engine.rs:423-428 | A directory moved outside its own subtree keeps the forest, for any target replaced |
| Namespace.ForestHasNoCycle | crates/oxfs-posix/src/redb_engine.rs:369-469 | No walk along directory entries returns to its start |
| Namespace.ForgetExactly | crates/oxfs-posix/src/redb_engine.rs:659-693 | forget drops a node exactly when it is no directory and nothing names it, and then exactly its chunk rows and symlink row |
| Namespace.NeverReissued | crates/oxfs-posix/src/redb_engine.rs:230-237 | A forgotten inode number is in no later state of any run |
| Namespace.RemovedDirectoryKeepsOneLink | crates/oxfs-posix/src/redb_engine.rs:330-363 | A removed directory keeps one link, so forget never removes its node |
| Reachability.ReachableRooted | crates/oxfs-posix/src/redb_engine.rs:203-693 | From a new file system every entry stays reachable from the root, as long as no rename replaces a directory with other things in it and nothing is put into a directory cut off |
| Reachability.StepRootedIff | crates/oxfs-posix/src/redb_engine.rs:203-693 | Exactly those two conditions, for each operation |
| Reachability.RenameRootedIff | crates/oxfs-posix/src/redb_engine.rs:386-428 | A rename cuts entries off exactly when it replaces a directory that holds anything besides the entry moved, or goes to a directory cut off before |
| Reachability.RenameOrphansFile | crates/oxfs-posix/src/redb_engine.rs:386-428 | A concrete run of four allowed operations after which a file lies in a directory without a name |
| Reachability.RootedIff | crates/oxfs-posix/src/redb_engine.rs:203-693 | In a forest every entry is reachable from the root exactly when every directory with entries is the root or has a name |
| RedbEngine.RedbMetaEngine.constructor | crates/oxfs-posix/src/redb_engine.rs:116-148 | The tables after init of a new database |
| RedbEngine.RedbMetaEngine.Reopen | crates/oxfs-posix/src/redb_engine.rs:103-108 | A reopened database has its old tables |
| RedbEngine.RedbMetaEngine.GetAttr | crates/oxfs-posix/src/redb_engine.rs:150-157 | Attributes of an existing node under its own number, NotFound otherwise; what they are is in the Attributes lemmas |
| RedbEngine.RedbMetaEngine.Lookup | crates/oxfs-posix/src/redb_engine.rs:159-173 | Name too long, no entry, or the attributes of the node the entry leads to, which the Attributes lemmas tie to creation, link counts and SQLite |
| Attributes.CreatedIsFound | crates/oxfs-posix/src/redb_engine.rs:150-263 | After a successful create, get_attr of the replied number, which no node had, and lookup of the name both answer the replied attributes: the kind asked for, size 0, one link or two for a directory |
| Attributes.MadeNodeIsFound | crates/oxfs-posix/src/redb_engine.rs:643-657 | After mknod the same, with the kind that the five POSIX type-bit patterns name, whatever the other bits; any other pattern is NotSupported and changes nothing |
| Attributes.KindOfModeIff | crates/oxfs-posix/src/redb_engine.rs:647-655 | A mode means a kind exactly if its type bits are those of that kind |
| Attributes.SymlinkIsFound | crates/oxfs-posix/src/redb_engine.rs:486-552 | After symlink the same, with the length of the target as size, and readlink answers the target |
| Attributes.LinkIsFound | crates/oxfs-posix/src/redb_engine.rs:591-641 | After link the new name and every old one answer the same attributes, with one link more |
| Attributes.SizeIsFound | crates/oxfs-posix/src/redb_engine.rs:291-315 | After a size update get_attr answers the new size for this node and what it answered before for any other |
| Attributes.AnsweredIsCounted | crates/oxfs-posix/src/redb_engine.rs:150-173 | In every state reachable by allowed operations get_attr answers the node's own number and exactly its link count and the kind all its entries record, and lookup of each of its names answers the same |
| Attributes.NameTooLongIff | crates/oxfs-posix/src/redb_engine.rs:203-641 | Names are refused for their length exactly above 255, before any other check |
| Attributes.LinksWrap | crates/oxfs-posix/src/sqlite.rs:88-88 | The signed count column is read as u32: negative values wrap around, others below 2^32 are themselves |
| Attributes.AttributesAgree | crates/oxfs-posix/src/sqlite.rs:211-220 | Attribute reads and lookups answer the same in both engines, errors included, under the renaming of inodes |
| RedbEngine.RedbMetaEngine.Readdir | crates/oxfs-posix/src/redb_engine.rs:175-201 | Exactly the entries of an existing directory, each name once; errors for absent and non-directory nodes |
| RedbEngine.RedbMetaEngine.Create | crates/oxfs-posix/src/redb_engine.rs:203-263 | Tables and reply after the transaction are those whose invariants are proved; errors change nothing |
| RedbEngine.RedbMetaEngine.Mknod | crates/oxfs-posix/src/redb_engine.rs:643-657 | As create, for the kind that the mode's type bits name; NotSupported for the others |
| RedbEngine.RedbMetaEngine.Symlink | crates/oxfs-posix/src/redb_engine.rs:486-544 | Node, entry and target row appear together or not at all |
| RedbEngine.RedbMetaEngine.Readlink | crates/oxfs-posix/src/redb_engine.rs:546-552 | The stored target or NotFound |
| RedbEngine.RedbMetaEngine.Link | crates/oxfs-posix/src/redb_engine.rs:591-641 | Entry and count change together; directories are refused |
| RedbEngine.RedbMetaEngine.DirHasEntries | crates/oxfs-posix/src/redb_engine.rs:331-338 | The scan finds an entry exactly when the directory has one |
| RedbEngine.RedbMetaEngine.Unlink | crates/oxfs-posix/src/redb_engine.rs:317-367 | Entry, child count and parent count change together; a non-empty directory is refused |
| RedbEngine.RedbMetaEngine.Rename | crates/oxfs-posix/src/redb_engine.rs:369-469 | All reads, writes and aliases of the transaction amount to detaching the target and moving the entry |
| RedbEngine.DetachTarget | crates/oxfs-posix/src/redb_engine.rs:400-420 | The replaced node loses a link, and the destination too if a directory was replaced |
| RedbEngine.MoveLinks | crates/oxfs-posix/src/redb_engine.rs:430-465 | Reading three nodes before writing them back moves one link between different parents, whatever coincides |
| RedbEngine.RedbMetaEngine.Forget | crates/oxfs-posix/src/redb_engine.rs:659-693 | A node with no links goes, with its chunk rows and symlink row |
| RedbEngine.RedbMetaEngine.SetSize | crates/oxfs-posix/src/redb_engine.rs:291-315 | Only the size of an existing node changes |
| RedbEngine.RedbMetaEngine.NextSliceId | crates/oxfs-posix/src/redb_engine.rs:471-484 | The counter's value is issued and the counter moves past it |
| RedbEngine.RedbMetaEngine.ReadSlices | crates/oxfs-posix/src/redb_engine.rs:265-273 | The chunk's row, empty if absent |
| RedbEngine.RedbMetaEngine.WriteSlice | crates/oxfs-posix/src/redb_engine.rs:275-289 | The slice is appended to the chunk's row |
| RedbEngine.RedbMetaEngine.ReplaceSlices | crates/oxfs-posix/src/redb_engine.rs:580-589 | The chunk's row is replaced |
| RedbEngine.RedbMetaEngine.GetChunksForInode | crates/oxfs-posix/src/redb_engine.rs:566-578 | Each chunk row of the inode, once |
| Simulation.EnginesSimulate | crates/oxfs-posix/src/sqlite.rs:248-709 | Any sequence of allowed operations, given to both engines under the renaming of inodes and slice ids, gets the same replies and errors and ends in the same tables |
| Simulation.RenameAgreesIff | crates/oxfs-posix/src/sqlite.rs:427-510 | A rename has the same reply and tables in both engines exactly when nothing is replaced or the replaced target survives in both: a file with another link, or an empty directory |
| Simulation.StepAgrees | crates/oxfs-posix/src/sqlite.rs:248-709 | The same for one operation |
| Simulation.ListingsAgree | crates/oxfs-posix/src/sqlite.rs:222-246 | A directory lists the same names, kinds and renamed inodes in both engines |
| Simulation.CreateAgrees | crates/oxfs-posix/src/sqlite.rs:248-312 | create agrees although the counters are read before one increment and after the other |
| Simulation.SymlinkAgrees | crates/oxfs-posix/src/sqlite.rs:524-572 | symlink agrees |
| Simulation.LinkAgrees | crates/oxfs-posix/src/sqlite.rs:641-681 | link agrees |
| Simulation.UnlinkAgrees | crates/oxfs-posix/src/sqlite.rs:383-425 | unlink agrees: node kind and entry kind coincide and no count is zero when lowered |
| Simulation.ForgetAgrees | crates/oxfs-posix/src/sqlite.rs:683-694 | forget agrees |
| Simulation.MoveAgrees | crates/oxfs-posix/src/sqlite.rs:480-497 | Moving an entry onto a free name agrees |
| Simulation.InitialSame | crates/oxfs-posix/src/sqlite.rs:133-209 | The two initialised databases correspond |
| SqliteRuns.SqlReachableInv | crates/oxfs-posix/src/sqlite.rs:248-709 | Every state SQLite can reach, by renames that replace anything, has exact link counts, no dangling entry and a forest, in the numbering of redb |
| SqliteRuns.StepKeepsShadow | crates/oxfs-posix/src/sqlite.rs:248-709 | Each SQLite operation is one of redb, or nothing where SQLite refuses, or a rename and a forget where it drops the target |
| SqliteRuns.DropIsForget | crates/oxfs-posix/src/sqlite.rs:427-510 | Replacing the last link of a file does to the namespace what a redb rename and a forget do |
| SqliteRuns.RenameLeaksIff | crates/oxfs-posix/src/sqlite.rs:464-468 | A rename leaves chunk rows without a node exactly when it drops a node that has some |
| SqliteRuns.LeakedForGood | crates/oxfs-posix/src/sqlite.rs:683-694 | No later operation removes such rows, and their inode number is not used again |
| SqliteEngine.SqliteMetaEngine.constructor | crates/oxfs-posix/src/sqlite.rs:133-209 | The tables after init of a new database |
| SqliteEngine.SqliteMetaEngine.GetAttr | crates/oxfs-posix/src/sqlite.rs:75-100 | The row's attributes under its own number, or NotFound |
| SqliteEngine.SqliteMetaEngine.Lookup | crates/oxfs-posix/src/sqlite.rs:216-220 | Name too long, or what the locked look-up answers |
| SqliteEngine.SqliteMetaEngine.LookupLocked | crates/oxfs-posix/src/sqlite.rs:102-114 | The attributes of the entry's node; NotFound if entry or node is missing |
| SqliteEngine.SqliteMetaEngine.CountEntries | crates/oxfs-posix/src/sqlite.rs:389-397 | The count is positive exactly when the directory has an entry |
| SqliteEngine.SqliteMetaEngine.Create | crates/oxfs-posix/src/sqlite.rs:248-312 | The statements in order end in the tables that are proved to correspond to redb's |
| SqliteEngine.SqliteMetaEngine.Mknod | crates/oxfs-posix/src/sqlite.rs:696-708 | As create, for the kind of the mode |
| SqliteEngine.SqliteMetaEngine.Symlink | crates/oxfs-posix/src/sqlite.rs:524-572 | Node, target and entry rows after the statements, primary keys respected |
| SqliteEngine.SqliteMetaEngine.Link | crates/oxfs-posix/src/sqlite.rs:641-681 | Entry row and count after the statements |
| SqliteEngine.SqliteMetaEngine.Unlink | crates/oxfs-posix/src/sqlite.rs:383-425 | Entry row and counts after the statements; a non-empty directory is refused |
| SqliteEngine.SqliteMetaEngine.Rename | crates/oxfs-posix/src/sqlite.rs:427-510 | Lookups, emptiness check, displacement and move, in the order of the statements |
| SqliteEngine.SqliteMetaEngine.Displace | crates/oxfs-posix/src/sqlite.rs:453-477 | The replaced entry goes, and its node row too once no link is left |
| SqliteEngine.SqliteMetaEngine.Move | crates/oxfs-posix/src/sqlite.rs:480-497 | The entry moves if the name is free; a directory carries a link between different parents |
| SqliteEngine.SqliteMetaEngine.Forget | crates/oxfs-posix/src/sqlite.rs:683-694 | A node with no links goes, with its chunk and symlink rows |
| SqliteEngine.SqliteMetaEngine.SetSize | crates/oxfs-posix/src/sqlite.rs:335-381 | Only the size changes; NotFound for an absent node |
| SqliteEngine.SqliteMetaEngine.NextSliceId | crates/oxfs-posix/src/sqlite.rs:512-522 | The counter moves first and its new value is issued |
| SqliteEngine.SqliteMetaEngine.WriteSlice | crates/oxfs-posix/src/sqlite.rs:319-333 | The slice is appended to the chunk's row |
| SqliteEngine.SqliteMetaEngine.ReplaceSlices | crates/oxfs-posix/src/sqlite.rs:629-639 | The chunk's row is replaced |
| FlatBuffer.ObjectIs | crates/oxfs-flat/src/vfs.rs:155-266 | For every interleaving of any number of writers and flushes, whatever first reads answer: the buffer is what the first write was built on under all accepted writes in commit order, and the object is the prefix of them that the PUT which landed last had in its snapshot |
| FlatBuffer.NoLostWrite | crates/oxfs-flat/src/vfs.rs:243-266 | If PUTs land in the order of their snapshots and first reads answer the object: whenever the handle is clean the object is the initial content under all accepted writes in order, and a clean non-empty buffer equals it |
| FlatBuffer.OneFlushLosesNothing | crates/oxfs-flat/src/vfs.rs:243-266 | One flush at a time is such an order |
| FlatBuffer.CleanHandleIff | crates/oxfs-flat/src/vfs.rs:257-263 | In any order, with any number of flushes: a clean handle is right exactly when, of the writes accepted after the snapshot that landed last, none ends behind the object and each byte they cover already has there the value of the last of them |
| FlatBuffer.NoWriteDiscarded | crates/oxfs-flat/src/vfs.rs:155-197 | However many first writers read the backend outside the lock and however many flushes overlap, the buffer is the initial content under every accepted write in commit order, if those reads answer the object |
| FlatBuffer.RacingFirstWriters | crates/oxfs-flat/src/vfs.rs:155-197 | It happens: two first writers both read before either installs, for any object and any writes; the second install is left out and both writes are in the buffer |
| FlatBuffer.FailedFlushIsRetried | crates/oxfs-flat/src/vfs.rs:243-266 | A PUT that fails, having landed or not, leaves the handle dirty with all its bytes, and the next flush stores them and cleans it |
| FlatBuffer.LateWriteStaysDirty | crates/oxfs-flat/src/vfs.rs:257-263 | A write accepted during any number of flushes leaves the handle dirty through any steps until a later snapshot |
| FlatBuffer.ReleaseStoresAll | crates/oxfs-flat/src/vfs.rs:268-273 | From any reachable dirty state with no flush under way, snapshot, successful PUT and mark leave the object as what the first write was built on under all accepted writes; that is the initial content under them exactly when the two agree outside the writes |
| FlatBuffer.FirstReadIff | crates/oxfs-flat/src/vfs.rs:172-172 | With first reads that fail or answer old bytes: the buffer is right exactly when the bytes read and the object agree in every byte no write covers, and in length unless a write ends behind both |
| FlatBuffer.FirstWriteIff | crates/oxfs-flat/src/vfs.rs:172-172 | The same for a single write |
| FlatBuffer.ReplayAgreesIff | crates/oxfs-flat/src/vfs.rs:189-193 | Two files become equal under a list of writes exactly when they agree outside all of them |
| FlatBuffer.ReplayFixedIff | crates/oxfs-flat/src/vfs.rs:189-193 | A list of writes changes nothing exactly when none ends behind the file and every byte covered already has the value of the last write over it |
| FlatBuffer.StaleReadOverwrites | crates/oxfs-flat/src/vfs.rs:172-183 | A concrete run in which an old byte from the first read overwrites a newer one in the object |
| FlatBuffer.TwoFlushesLoseAWrite | crates/oxfs-flat/src/vfs.rs:243-266 | A run of twelve steps with two overlapping flushes that ends with a clean handle, nothing under way, and the object without the second write |
| FlatBuffer.StepKeepsInv | crates/oxfs-flat/src/vfs.rs:155-266 | Each critical section and backend call keeps the protocol invariant |
| FlatBuffer.RunKeepsInv | crates/oxfs-flat/src/vfs.rs:155-266 | The same over every interleaving; faithful first reads and ordered PUTs carry over as well |
| FlatBuffer.WholeWrite | crates/oxfs-flat/src/vfs.rs:155-197 | One uninterrupted write_at is a run of the protocol: read if the buffer is empty and clean, install, commit |
| FlatBuffer.PatchBytes | crates/oxfs-flat/src/vfs.rs:189-193 | Byte by byte: written bytes, else old bytes, else zeros |
| FlatVirtualFs.FlatVfs.Open | crates/oxfs-flat/src/vfs.rs:222-234 | A handle never in use before, with an empty clean buffer |
| FlatVirtualFs.FlatVfs.ReadDirty | crates/oxfs-flat/src/vfs.rs:143-153 | Answers exactly for a dirty handle, with the buffer's bytes in range |
| FlatVirtualFs.FlatVfs.WriteAt | crates/oxfs-flat/src/vfs.rs:155-197 | The protocol's install and commit over the store's answer to exactly one read, made only by a handle with an empty clean buffer; a failed read counts as no object, a stale one is taken as it is; unknown handles are refused |
| FlatVirtualFs.FlatVfs.Flush | crates/oxfs-flat/src/vfs.rs:243-266 | A dirty handle makes one PUT: objects, result and dirty mark follow from how that request goes; a clean handle makes none |
| FlatVirtualFs.FlatVfs.Release | crates/oxfs-flat/src/vfs.rs:268-273 | The handle is gone, and the store holds what the one PUT of a dirty buffer makes of it, landed or not, or is untouched if the handle was clean |
| FlatCache.CachedOperator.Read | crates/oxfs-flat/src/cache.rs:63-111 | With any external writes and cache traffic between any two backend calls, bytes returned were the object's content at some instant during the call; only if the call's first request was a conditional HEAD that the store failed with a transient error may they be an older content, never invented bytes; errors come from a failed request of this call or an instant without the object, and of the caches it touches only the content entry of the path. The cache is used: a cached path that nobody drops is validated by a HEAD, which is the only request if the tag still matches, as it does for an entry that is current, left alone by others and asked for without a fault; otherwise, if requests succeed, the store gives tags and nobody writes the path meanwhile, two more requests answer its content and leave it cached under its tag |
| FlatCache.CachedOperator.Refetch | crates/oxfs-flat/src/cache.rs:83-110 | The path without a usable entry is linearizable without exception; if nobody writes it meanwhile and requests succeed, tagged content is read by two requests and cached |
| FlatCache.CachedOperator.Conditional | crates/oxfs-flat/src/cache.rs:91-107 | Bytes under the tag were the content at an instant of the call and are stored with it, whatever happens between the answer and the store; it answers them if the tag stays current and the request succeeds |
| FlatCache.CachedOperator.Write | crates/oxfs-flat/src/cache.rs:113-121 | A write that lands is part of the path's history from within the call. After a successful one to the entry name of directory d, written with or without trailing slashes, the content and stat entries of d/name and d/name/ and the listing of d are gone, unless other callers put them there during the call; for a bare name it is the listing of the root, for the root itself none; no other entry is gone unless others dropped it. A failed one leaves the caches alone |
| FlatCache.CachedOperator.InvalidatePath | crates/oxfs-flat/src/cache.rs:178-200 | With other callers at work between the removals: exactly the content and stat entries of both spellings of the path and the listing of the directory it is an entry of go, for every form of path |
| FlatCache.AffectedIsRight | crates/oxfs-flat/src/cache.rs:178-200 | The keys removed are those of the directory and the name, said without looking for a slash |
| FlatCache.PathForms | crates/oxfs-flat/src/cache.rs:178-200 | Every path is the entry of a directory, a bare name or the root, each perhaps with trailing slashes |
| FlatCache.CachedOperator.StoreEntry | crates/oxfs-flat/src/cache.rs:93-102 | The new entry pairs a tag with bytes that had it, by then perhaps no longer current |
| FlatCache.CachedOperator.Stat | crates/oxfs-flat/src/cache.rs:83-88 | The tag of what is there now, unless the request fails |
| FlatCache.CachedOperator.StatIfNoneMatch | crates/oxfs-flat/src/cache.rs:69-80 | The condition fails exactly when the current tag is the given one, unless the request fails |
| FlatCache.CachedOperator.ReadIfMatch | crates/oxfs-flat/src/cache.rs:91-107 | The bytes exactly when the current tag is the given one, unless the request fails |
| FlatCache.CachedOperator.ReadPlain | crates/oxfs-flat/src/cache.rs:110-110 | The bytes there now, unless the request fails |
| FlatCache.MatchingTagIsCurrent | crates/oxfs-flat/src/cache.rs:69-72 | A tag that still matches vouches for cached bytes, however old the entry |
| FlatCache.CachedIsTruthful | crates/oxfs-flat/src/cache.rs:68-79 | A cached entry is some past content, and the current one if its tag still matches |
| FlatCache.LastSlash | crates/oxfs-flat/src/cache.rs:196-199 | The position of the last slash, none if there is none |
| FlatCache.TrimSlashes | crates/oxfs-flat/src/cache.rs:179-179 | The path without its trailing slashes: nothing else is cut off, and none is left |

## Left out

- VirtualFs.Vfs.Write: assumes a range of at most 2^58 bytes and slice ids that do not run out of `u64`.
- TieredCaches.TieredCache.ReplayWal: does not follow a mount over a log with misread records, which brings foreign bytes back, nor one that cannot read the log beyond the mount itself.
- FlatBuffer.NoLostWrite: promises nothing for PUTs that land out of order or first reads that answer other bytes, because the code loses writes then; the exact conditions are in FlatBuffer.CleanHandleIff and FlatBuffer.FirstReadIff.
- FlatCache.CachedOperator.Read: the arm that serves cached bytes after a transient error promises only some past content.
- FlatCache.CachedOperator.Write: entries that other callers put back while it runs may be older than the write; stat and listing entries are keys without contents.
- Concurrent writes, compactions and flushes on one cache: the code gives no guarantee there.
- Widths of counters, link counts, sizes and lengths: unbounded numbers, except the `u32` chunk index, the `u32` results of writes, the log's length field and the `u64` slice ids.
- Timestamps, modes, owners, `statfs`, hit counters, extended attributes and the TTLs of the stat and directory caches: plain fields.
- Errors of the databases themselves: a redb transaction is all or nothing, an SQLite statement takes effect at once; a crash between SQLite statements is not modelled.
- Names, targets and paths are sequences of characters that stand for their bytes.
- Order of directory listings, chunk rows and parallel completions: any order.
- The background flusher and the per-inode locks: they only call the compaction modelled here.
- Prefetching: it only adds reads of slices, which change no contents; overlapping another read or a flush they may spoil the L2 accounting (CacheModel.OverlappingMissesMiscount, CacheModel.TwoFillsIff).
- `PassthroughCache`: a direct call of the data engine.
- Flat mode's truncate, rename, stat and listing: no property that survives a concurrent flush. A write to a handle that is being released is refused or lost with it.
- FUSE adapters, inode table of flat mode, backend builder and command line: plumbing.
