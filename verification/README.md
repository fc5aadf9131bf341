# Verified models of the storage, message and file layers

This project models, in Dafny, the logic of three packages and proves what they are for.

**`packages/minidb`, an embedded key-value store.** The centre is a transition system (`Durability.dfy`) over a store,
an append-only log of checksummed frames, a snapshot that is written while writers go on, the files of a running
compaction, crashes and recovery. Every step of the code is a step of the machine: commit (append and apply at once),
bytes landing, expiry, publishing a pointer, taking the fence, visiting one key, copying the tail, sealing, draining,
the two renames, the swap, the crash and the recovery. Its invariant (`Invariant.dfy`) is kept by all of them
(`Crash.dfy`), so every state of every run is durable and every pointer reads what it should. What commands do, live
and after a crash, is told by the fields of their ops alone in `Effects.dfy`, and that work gets done, frames landing,
pointers going to disk and compactions emptying the log, in `Progress.dfy`. Below it lie the byte
formats (`Codec.dfy`, `BatchCodec.dfy`, `Crc32.dfy`, with their layout and what damage they notice in `Integrity.dfy`), a scan theory for any self-delimiting format (`Scanner.dfy`,
`Framing.dfy`), last-writer-wins replay (`Replay.dfy`) and what recovery loads (`Loading.dfy`). Beside it stand the
loops of the log and its rotation (`Wal.dfy`, `Rotation.dfy`), a replica that polls the log (`Replica.dfy`), the lock
protocol (`Lock.dfy`), the skip list with spans (`SkipList.dfy` over `Sorted.dfy`, `SortedLaws.dfy` and `Towers.dfy`), the record store
with its expiry heap and memory limit (`KeyStore.dfy`, `Heap.dfy`, `Memory.dfy`), the derived indexes (`DtIndex.dfy`,
`CompoundIndex.dfy`, `Indexes.dfy`, moved together by `Derived.dfy`), the text index with its builds and postings files
(`TextIndex.dfy`, `Postings.dfy`) and the query paths (`Query.dfy`, with the algebra of answers in `QueryLaws.dfy`).

**`packages/kosong`, the message layer.** How a streamed reply is assembled from interleaved parts (`Assembly.dfy`,
and what the reply says of its parts in `Replies.dfy`), and how a history is made legal before it goes out
(`Normalize.dfy`, told message by message in `Wire.dfy`, with JSON in `Json.dfy` and `JsonTexts.dfy`).

**`packages/kaos`, the file layer.** UTF-8 validation and decoding (`Utf8.dfy`) and the two line readers (`Lines.dfy`).

Code that updates objects step by step is modelled as classes and loops, proved against functions on values; what the
code promises is then proved about those functions, for all inputs and all runs; and where a function is itself what a loop
is measured by, laws that do not name it say what it means. Files are byte sequences, a short
write or a read of any size is a nondeterministic choice, and so is a clock that moves on.

## Findings

Where the code does not do what it is meant to in every case, a concrete case and the exact condition are proved.

- **A torn frame can resurrect a frame inside it.** If the log is cut inside a value that itself holds a frame, the
  default resynchronising recovery replays the inner frame (`Codec.EmbeddedFrameResurfaces`). It returns exactly the
  whole frames if and only if nothing in the torn tail decodes (`Framing.ResyncScanOfLog`); a writer is safe if the
  magic bytes are nowhere in a frame but at its front (`Crash.MagicOnlyInFront`, `Crash.DurableByDefault`).
- **Mutual exclusion rests on two things.** One contender that dies between its rename and its claim is enough for two
  holders (`Lock.DeathAfterRenameBreaksExclusion`), and so are two inspections interrupted between reading the file and
  asking for its owner (`Lock.SplitInspectionBreaksExclusion`). Without either, it holds (`Lock.AtMostOneHolder`).
- **A rollback can leave a column behind.** If the old record has datetime columns and its TTL passes between the write
  and its rollback, its columns are entered for a key that is gone; otherwise every index is exact
  (`Derived.Database.Restore`, an if and only if).
- **A compound index keeps empty groups**, which a rebuild would not have; it equals a rebuild if and only if none is
  empty, and no query can tell (`CompoundIndexes.EmptyGroupStays`, `CompoundIndexes.EqualUnlessEmptied`).
- **The batch uniqueness check can reject a batch it need not.** A value that is not an object counts as having no
  field, though it is never indexed (`Indexes.PlainIsRejected`); apart from that it is exact
  (`Indexes.AcceptsExactlyWhen`).
- **A range index can lose a match.** Null and booleans compare like numbers but are not in the index
  (`Query.NullIsLost`); a match is offered if and only if its value is a number (`Query.OfferedIffNumber`).
- **A limit of zero yields one row**, on the fast query path and in the line reader (`Query.QueryByColumn`,
  `Lines.ReadLines`).
- **A call reported early need not be complete** when deltas are interleaved (`Assembly.EarlyIsFinalIff`), as the
  documentation of the callback says and the comment beside the call does not.
- **A bigint expiry beyond 2^53 can come back rounded** (`Codec.ReadsBackUnchangedIff`).

## Model

| member | source | states |
|---|---|---|
| Crash.DurableAtEveryCrashPoint | packages/minidb/src/compaction.ts:181-300 | In every run of writers, landing bytes, expiry, compaction steps, crashes and recoveries, a crash in any state (before the renames, between them, after both) recovers, from then on, exactly the view of replaying every flushed frame last writer wins; in resync mode if no frame is embedded in the torn tail. |
| Crash.DurableByDefault | packages/minidb/src/recovery.ts:130-196 | The same in the default resync mode for every run whose writers append frames with no frame inside: the tail condition then holds at every crash. |
| Crash.MagicOnlyInFront | packages/minidb/src/codec.ts:399-439 | A frame whose bytes have the magic nowhere but at the front is such a frame, however much of it lands. |
| Crash.PointersReadBack | packages/minidb/src/compaction.ts:253-263 | In every state of every run each live record that points to a file reads back exactly the bytes of its latest set, and is the record that replaying the history shows: after publishing, rotating, crashing and recovering alike. |
| Crash.LoadedPlaces | packages/minidb/src/recovery.ts:65-128 | Every pointer recovery computes from the bytes on disk finds the value of its record: a frame's own value where the scan says, a batch op's where scanBatchOpRefs says. |
| Crash.RecoverIsRight | packages/minidb/src/recovery.ts:71-128 | From any invariant state: replaying the snapshot and then the WAL, each op against its own clock reading, shows from the end of recovery on what all surviving frames show. |
| Crash.RemapRight | packages/minidb/src/compaction.ts:253-263 | The remap (WAL offset minus fence, else snapshot location) leaves a right pointer right in the new pair of files. |
| Crash.StepKeeps | packages/minidb/src/compaction.ts:181-300 | Every step of writers, compaction, crash and recovery keeps the invariant that ties store, log, snapshot, tmp files and pointers together. |
| Replay.FuzzySnapshotRepaired | packages/minidb/src/snapshot.ts:67-81 | A snapshot whose keys are each taken at a moment of their own after the fence, followed by the log from the fence, shows every reader what the whole history shows. |
| Replay.LastWriterWins | packages/minidb/src/recovery.ts:121-128 | After replaying ops, a key has what its last op left, or what it had if no op touches it. |
| Replay.ExpiryAtReplayInvisible | packages/minidb/src/recovery.ts:71-89 | Turning expired SETs into DELs, each at its own replay time, never changes what is visible at that time or later. |
| Invariant.VisitKeeps | packages/minidb/src/snapshot.ts:67-81 | Visiting one key while writers run keeps every key taken, to be visited, or absent, and every old pointer movable. |
| Invariant.WriteKeeps | packages/minidb/src/index.ts:776-822 | A commit (append and apply in one step) keeps the invariant in any phase of a compaction. |
| Invariant.PublishKeeps | packages/minidb/src/index.ts:762-774 | Publishing a pointer for the same WAL object and the same record version keeps every pointer right. |
| Loading.LoadedEntries | packages/minidb/src/recovery.ts:99-128 | The store that recovery loads, frame by frame and op by op, has exactly the entries that replaying the ops gives. |
| Loading.BatchOpsPlaced | packages/minidb/src/codec.ts:456-484 | For arbitrary bytes that decode as batch ops, every value lies where the lengths before it put it. |
| Loading.RecoverStore | packages/minidb/src/recovery.ts:130-196 | The loops over frames and batch ops compute the recovered store of the machine, for any clock readings on the way. |
| Commands.FrameHoldsValues | packages/minidb/src/index.ts:889-907 | Every value of a command lies in its frame exactly where its pointer is computed. |
| Commands.FrameMeansOps | packages/minidb/src/recovery.ts:99-119 | The frame a writer appends means exactly the ops it applied to its store. |
| Effects.CommitTakesEffect | packages/minidb/src/index.ts:955-979 | What a commit does at once, on the fields of the ops a command holds: a key whose last op is a DEL is gone, one whose last op is a SET has that value, metadata and expiry, every other key keeps its record. |
| Effects.LastExists | packages/minidb/src/recovery.ts:121-128 | A key that ops name has a last op, so the statements about last ops leave out no key. |
| Effects.StoreShowsLastOps | packages/minidb/src/index.ts:889-907 | In every state of every run, crashes and recoveries included, a key shows what the last committed op on it left: value, metadata and expiry behind a SET that has not expired, nothing behind a DEL. |
| Effects.RecoveryShowsLastOps | packages/minidb/src/recovery.ts:99-128 | A crash in any state of any run recovers what the last op left among the commands that had landed, in the same terms. |
| Progress.LandedIsKept | packages/minidb/src/wal.ts:119-175 | What is queued can always land, and then no crash takes back a commit. |
| Progress.WrittenGoesToDisk | packages/minidb/src/index.ts:762-774 | Once the frame of a SET has landed its pointer can be published; the record then holds the pointer, and reading it gives the value. |
| Progress.CompactionEmptiesTheLog | packages/minidb/src/compaction.ts:181-300 | A compaction left alone reaches its end from any state between compactions: every record as it was, the snapshot holding exactly the live records, one frame each, and the log empty. |
| Codec.FrameRoundTrip | packages/minidb/src/codec.ts:110-145 | An encoded frame reads back, whatever follows it: its fields, its length and the place of its value. |
| Codec.ReadsBackUnchangedIff | packages/minidb/src/codec.ts:135-145 | The record that comes back is the one written if and only if its metadata is not an empty blob and its expiry is a double, as every time below 2^53 is. |
| Codec.CodecIsLawful | packages/minidb/src/codec.ts:284-317 | Frames frame their own length: they lie inside the buffer, read back whatever follows, and cutting a buffer loses exactly the frames that no longer fit. |
| Codec.EmbeddedFrameResurfaces | packages/minidb/src/codec.ts:494-534 | A frame whose value is a frame, cut off after the value, makes the resync scan report a frame that was never appended. |
| Framing.ScanIsExact | packages/minidb/src/codec.ts:494-534 | For arbitrary bytes frames and corrupt ranges tile the input: every byte is in exactly one, sizes add up, and no valid frame starts in a corrupt range. |
| Framing.TruncateThenRescan | packages/minidb/src/recovery.ts:170-184 | Truncating the bad tail that the scan found and scanning again gives the same frames and no bad tail, in both modes. |
| Framing.StrictScanOfLog | packages/minidb/src/codec.ts:494-534 | A strict scan of a log with a torn tail returns exactly the whole frames and stops behind the last. |
| Framing.ResyncScanOfLog | packages/minidb/src/codec.ts:494-534 | The resync scan of such a log returns exactly the whole frames if and only if no frame is embedded in the torn tail. |
| Scanner.FoundValid | packages/minidb/src/codec.ts:494-534 | Every range a scan reports is a valid item at its place with its length. |
| CodecIO.EncodeFrame | packages/minidb/src/codec.ts:110-145 | Writing through a moving offset fills the buffer with exactly the frame, or refuses exactly the records past the limits. |
| CodecIO.ScanFrameRefs | packages/minidb/src/codec.ts:399-439 | The chunked file scan reports exactly the frames, corrupt ranges and end of the scan of the whole buffer, for any chunk sizes, start and mode. |
| CodecIO.FindMagic | packages/minidb/src/codec.ts:381-397 | The chunked search finds the first place with the magic from the start on, or none if there is none. |
| CodecIO.ChunkedCrc | packages/minidb/src/codec.ts:328-379 | The checksum taken chunk by chunk is the checksum of the whole range. |
| BatchCodec.BatchRoundTrip | packages/minidb/src/codec.ts:157-200 | An encoded batch body decodes to its ops, whatever trails it. |
| BatchCodec.TruncatedBatch | packages/minidb/src/codec.ts:181-200 | A batch body cut anywhere behind its count is rejected as a whole. |
| BatchCodec.ScanBatchOpRefs | packages/minidb/src/codec.ts:456-484 | Returns the ops that decoding gives (or rejects exactly when decoding does), each with a place that holds its value and that the lengths before it determine. |
| Crc32.ContinueAppend | packages/minidb/src/crc32.ts:32-39 | Continuing a checksum over a second piece gives the checksum of both together. |
| Crc32.BuildTable | packages/minidb/src/crc32.ts:13-29 | Every table entry is eight bit steps of the polynomial from its index. |
| Crc32.Compute | packages/minidb/src/crc32.ts:32-39 | The table-driven loop computes the bit-by-bit checksum, continued from any previous one. |
| Integrity.FrameLayout | packages/minidb/src/codec.ts:110-145 | Every field of a frame lies at its documented offset with its documented width, lowest byte first, and the checksum covers all but the magic. |
| Integrity.ChecksumSeesBurst | packages/minidb/src/crc32.ts:32-39 | Two byte strings that differ in up to four neighbouring bytes have different checksums. |
| Integrity.FrameDamageIsSeen | packages/minidb/src/codec.ts:284-317 | Any change of up to four neighbouring bytes of a frame outside its lengths, magic and checksum included, makes it no frame, whatever follows. |
| Integrity.RecordDamageIsSeen | packages/minidb/src/text-postings.ts:120-139 | The same for a postings record. |
| Replicas.PollsFollow | packages/minidb/src/recovery.ts:220-254 | Polled at any sequence of moments while the log grows by any number of bytes, a replica that starts at a frame boundary never asks for a reopen, and after each poll shows what one full replay of the file of that moment shows. |
| Replicas.PollOfLog | packages/minidb/src/recovery.ts:220-254 | However many bytes have landed, one poll from a frame boundary yields exactly the whole frames from there and stops at the next boundary. |
| Replicas.Replica.CatchUpFromWal | packages/minidb/src/index.ts:1709-1717 | Asks for a reopen exactly when the continuation, the inode or the bytes at the offset do not fit; otherwise advances to the new boundary with the view of the frames applied, whatever expires meanwhile. |
| Replicas.Replica.ApplyRecoveredOp | packages/minidb/src/index.ts:1021-1060 | Applying a recovered op, with its lazy reaping before and after, shows what the plain op shows. |
| Replicas.ReopensExactlyWhen | packages/minidb/src/recovery.ts:220-254 | A poll asks for a reopen exactly when its offset is no place in the file, or the bytes there neither are a frame nor begin like one. |
| Wal.WAL.AppendLoc | packages/minidb/src/wal.ts:92-113 | Accepts a frame and predicts the offset behind everything accepted so far, or refuses when sealed or closed. |
| Wal.WAL.Flush | packages/minidb/src/wal.ts:196-201 | Ends with nothing queued or in flight and the file holding every accepted frame in append order; on a sealed and quiet WAL the file does not change. |
| Wal.WAL.FrameSits | packages/minidb/src/wal.ts:119-175 | Under any short writes, each settled frame sits exactly at the offset predicted for it. |
| Wal.WAL.NextOffsetCounts | packages/minidb/src/wal.ts:92-113 | The next offset is always the file size plus the bytes in flight plus the bytes queued. |
| Wal.WAL.RunBatch | packages/minidb/src/wal.ts:119-175 | One group commit with arbitrary short writes lands its frames in order behind what was there. |
| Rotation.CopyFileRange | packages/minidb/src/compaction.ts:119-154 | Copies exactly the range, through short reads and short writes. |
| Rotation.CopyTail | packages/minidb/src/compaction.ts:212-275 | Pre-copy, seal and drain end, and then the new file holds the whole tail behind the fence of everything ever accepted, and nothing more can land in the old one. |
| Lock.AtMostOneHolder | packages/minidb/src/lockfile.ts:76-167 | Over all interleavings of any number of contenders at most one live process holds the lock, and the file names it; if inspections are atomic and nobody dies between its rename and the end of its attempt. |
| Lock.HolderKeepsTheLock | packages/minidb/src/lockfile.ts:254-293 | The file names a live holder until the holder itself releases or dies. |
| Lock.StaleLockIsTaken | packages/minidb/src/lockfile.ts:76-167 | From any state of any run: if the lock is free or its owner dead and no live process watches, a contender that goes on alone gets it. |
| Lock.DeathAfterRenameBreaksExclusion | packages/minidb/src/lockfile.ts:101-167 | A run with one death between rename and claim in which two live processes hold the lock. |
| Lock.SplitInspectionBreaksExclusion | packages/minidb/src/lockfile.ts:213-229 | A run with two inspections interrupted between reading the file and asking for its owner in which two live processes hold the lock. |
| Lock.ReleasedLockIsTaken | packages/minidb/src/lockfile.ts:269-293 | From any run in which a process holds the lock and no live process watches: after its release, or its release at exit, the next contender that goes on alone gets the lock, while the last owner lives on and holds nothing. |
| Lock.ForeignFileIsLeft | packages/minidb/src/lockfile.ts:269-293 | A holder whose file has been replaced leaves it alone when it lets go. |
| Lock.LiveLockIsRespected | packages/minidb/src/lockfile.ts:76-100 | A contender that meets a live owner gives up and leaves everything as it was. |
| Lock.RetryMeetsTheGate | packages/minidb/src/lockfile.ts:101-167 | A rename that is tried again goes back through the gate: it bids for the same corpse, or yields to an owner that came in between. |
| Lock.LaterBidWins | packages/minidb/src/lockfile.ts:101-167 | Of two bids for one corpse the later rename wins; the earlier bidder gives up and the later one gets the lock. |
| SkipLists.SkipList.Insert | packages/minidb/src/skiplist.ts:78-119 | For any node height: every level stays a subsequence of the one below with exact spans and back links, and the list becomes the sorted sequence with the entry inserted. |
| SkipLists.SkipList.Delete | packages/minidb/src/skiplist.ts:121-154 | The same for removal, level shrink included; one copy of the entry goes if it was there, and the result says whether it was. |
| SkipLists.SkipList.Range | packages/minidb/src/skiplist.ts:207-298 | Returns precisely the offset/count slice of the filtered sorted sequence, forward or reverse, for any bounds. |
| SkipLists.SkipList.GetRank | packages/minidb/src/skiplist.ts:172-187 | The rank summed up from spans is the entry's position in the sequence (of its last copy), or none. |
| SkipLists.SkipList.GetByRank | packages/minidb/src/skiplist.ts:189-205 | The node found by adding up spans is the entry at that position, or none outside the list. |
| SkipLists.SkipList.LowerBound | packages/minidb/src/skiplist.ts:157-170 | Finds the first node behind a bound, strict or not. |
| Sorted.InsertedIsSorted | packages/minidb/src/skiplist.ts:78-119 | Inserting keeps the order and adds exactly the entry. |
| Sorted.RemoveUndoesInsert | packages/minidb/src/skiplist.ts:136-154 | Removing an entry just inserted gives back the sequence. |
| Sorted.AtRank | packages/minidb/src/skiplist.ts:172-205 | The entry at the rank of an entry is that entry. |
| Sorted.RankAt | packages/minidb/src/skiplist.ts:172-205 | On distinct entries the rank of the entry at a rank is that rank. |
| Sorted.FilterIsSlice | packages/minidb/src/skiplist.ts:207-298 | In a sorted sequence the entries within two bounds are one slice. |
| SortedLaws.StringLessMeans | packages/minidb/src/skiplist.ts:67-76 | Strings are ordered by their first difference, a prefix before what extends it. |
| SortedLaws.SortedAscends | packages/minidb/src/skiplist.ts:67-76 | In a sorted sequence numbers and strings ascend, and equal keys ascend by value. |
| SortedLaws.WithinMeans | packages/minidb/src/skiplist.ts:207-298 | On numbers the four bounds are at least, more than, at most and less than. |
| SortedLaws.RangeByPosition | packages/minidb/src/skiplist.ts:207-298 | A range is the run of positions within the bounds, forward or backward, less the first offset of them, at most count. |
| SortedLaws.HitsByPosition | packages/minidb/src/skiplist.ts:207-298 | The same counted in the filtered sequence: hit by hit from the front, or from the back. |
| TextIndexes.TextIndex.Search | packages/minidb/src/text-index.ts:421-460 | In any state, a build in progress included, the hits are exactly the documents of the naive AND/OR scan, each once, cut at the limit. |
| TextIndexes.HitsMean | packages/minidb/src/text-index.ts:421-460 | One term finds the documents that contain it; AND finds what its parts have in common, OR what they have together; no term finds nothing. |
| TextIndexes.TextIndex.Add | packages/minidb/src/text-index.ts:336-357 | The index then stands for the documents with this one written; while a build runs the write is queued too. |
| TextIndexes.TextIndex.Remove | packages/minidb/src/text-index.ts:359-376 | The index then stands for the documents without this one; while a build runs the removal is queued too. |
| TextIndexes.TextIndex.Visit | packages/minidb/src/text-index.ts:235-263 | Staging one document of the stream keeps what is staged exact for the documents staged. |
| TextIndexes.TextIndex.Swap | packages/minidb/src/text-index.ts:265-325 | After the swap and the replay of the queue the index is exact for the current documents, less exactly those the stream left out and nothing wrote since; it fails exactly if the postings do not fit the file format, and then the old index stays. |
| TextIndexes.TextIndex.FailBuild | packages/minidb/src/text-index.ts:326-331 | A failed build leaves the old index, exact for every write since. |
| TextIndexes.ReplayIsCurrent | packages/minidb/src/text-index.ts:265-325 | Replaying the writes of a build over what it staged gives the current documents, less those it missed. |
| TextIndexes.TextIndex.FreshIsExact | packages/minidb/src/text-index.ts:202-215 | An index that needs no rebuild is exact in its base alone. |
| Postings.ListRoundTrip | packages/minidb/src/text-postings.ts:62-94 | A posting list in delta and varint coding decodes to itself. |
| Postings.Uint32RoundTrip | packages/minidb/src/text-postings.ts:37-58 | A varint of a 32-bit number reads back, whatever follows. |
| Postings.DecodeVarint | packages/minidb/src/text-postings.ts:46-58 | The loop reads what the definition reads, truncation to 32 bits and overlong input included. |
| Postings.EntryRoundTrip | packages/minidb/src/text-postings.ts:98-139 | An encoded record decodes to its term, count and list, and passes its checksum. |
| Postings.Rebuild | packages/minidb/src/text-postings.ts:212-247 | After writing a postings file every staged term is found through its pointer with exactly its list, and no other term has one. |
| KeyStore.Store.SetRef | packages/minidb/src/store.ts:213-234 | Setting keeps the accounting: bytes is the sum of record sizes, the TTL counter counts the TTL records, the ordered keys are the map's keys, every TTL record has its heap entry. |
| KeyStore.Store.Remove | packages/minidb/src/store.ts:188-201 | Removing keeps the same accounting and takes out exactly the record. |
| KeyStore.Store.ActiveExpire | packages/minidb/src/store.ts:331-355 | Removes only expired records; a pass that finishes removes all of them, and one that does not has worked off its quota of due entries, each with its record unless it was stale. |
| KeyStore.Store.ReapExpired | packages/minidb/src/store.ts:357-367 | Removes all and only the expired records. |
| KeyStore.Store.Size | packages/minidb/src/store.ts:138-148 | Counts exactly the records that are not expired. |
| KeyStore.Store.GetRecord | packages/minidb/src/store.ts:259-268 | Drops the record exactly if it has expired, and otherwise returns it. |
| Heap.MinHeap.Pop | packages/minidb/src/store.ts:67-87 | Takes out a least entry and leaves a heap with the others. |
| Heap.MinHeap.Push | packages/minidb/src/store.ts:56-65 | Adds exactly the entry and leaves a heap. |
| Memory.Guard.EnsureMemoryFor | packages/minidb/src/index.ts:703-721 | Evicts nothing if the batch fits at once or the policy is to reject; otherwise the victims go in the order of their last touch, each while the batch did not fit, none a key of the batch; accepts exactly when the batch then fits, and on rejection no key was left to evict (an empty key, which the loop takes for no victim, aside). |
| Memory.Guard.PickVictim | packages/minidb/src/index.ts:669-676 | Picks the least recently touched live key that may go. |
| Memory.Guard.Projected | packages/minidb/src/index.ts:651-666 | Computes the bytes the store would hold after the whole batch, repeated keys included. |
| Memory.TouchedByLastTouch | packages/minidb/src/index.ts:632-645 | The access list holds every key touched, once, in the order of its last touch. |
| Memory.AfterTakesLast | packages/minidb/src/index.ts:651-666 | What a batch leaves for a key, by the fields of its last op: the record put, or none. |
| Memory.Commit | packages/minidb/src/index.ts:703-721 | An accepted batch leaves the store within the limit: the old records that have not expired, less the victims, with the batch applied. |
| Derived.SameAsRebuilt | packages/minidb/src/index.ts:945-979 | After any history of writes, expiry and rollbacks the columns, groups, equality and range indexes are those of any other database with the same documents, in particular of one rebuilt from them. |
| Derived.IndexesShowRecords | packages/minidb/src/index.ts:945-979 | After any history a record stands in a datetime column at its value, in its compound group at its place and under its keys in the secondary index exactly when the store has it. |
| Derived.Database.Apply | packages/minidb/src/index.ts:945-979 | A set or delete moves the store and every derived index together and returns the live record that was there. |
| Derived.Database.Restore | packages/minidb/src/index.ts:989-1010 | Puts the old document back unless the key has changed since; every index is exact afterwards if and only if it is not the case that the old record has columns and its TTL has passed meanwhile. |
| Derived.Database.FailedWrite | packages/minidb/src/index.ts:776-822 | A write whose append fails leaves the documents as they were (a document that had expired aside) and every index exact. |
| Derived.Database.FailedBatch | packages/minidb/src/index.ts:848-919 | A batch whose append fails is undone as a whole, first previous record and last version per key, with every index exact. |
| DtIndexes.DtIndex.Set | packages/minidb/src/dt-index.ts:35-60 | Each column holds exactly the ordered values of the keys that have one; columns nobody is in are gone. |
| DtIndexes.DtIndex.Del | packages/minidb/src/dt-index.ts:62-75 | The same after a key is gone. |
| DtIndexes.ColumnsShowRecords | packages/minidb/src/dt-index.ts:35-75 | A key stands in a column at a number, once, exactly when its record has that number there. |
| DtIndexes.ColsAreUnique | packages/minidb/src/dt-index.ts:99-106 | The columns are determined by the records alone, so incremental upkeep equals a rebuild. |
| CompoundIndexes.CompoundIndex.Add | packages/minidb/src/compound-index.ts:88-114 | Each group lists exactly its documents in order after a document is entered, moved or taken out. |
| CompoundIndexes.GroupsShowPlaces | packages/minidb/src/compound-index.ts:88-141 | A document stands in a group, once, exactly at its place. |
| CompoundIndexes.EqualUnlessEmptied | packages/minidb/src/compound-index.ts:116-125 | The groups equal those of a rebuild if and only if no group is empty. |
| CompoundIndexes.EmptyGroupStays | packages/minidb/src/compound-index.ts:116-125 | A concrete history after which a group is kept empty that no rebuild makes, though no query can tell. |
| Indexes.Index.Add | packages/minidb/src/index-manager.ts:220-244 | The equality map or range list holds exactly the keys of every document after one is added. |
| Indexes.Index.Remove | packages/minidb/src/index-manager.ts:246-268 | The same after a document is dropped from under every key it had. |
| Indexes.Index.Rebuild | packages/minidb/src/index-manager.ts:308-323 | A rebuild from a stream of documents is exact for them. |
| Indexes.SameAsRebuilt | packages/minidb/src/index-manager.ts:308-323 | An index kept up to date write by write is the one built from its documents. |
| Indexes.Index.FindEq | packages/minidb/src/index-manager.ts:270-277 | Returns exactly the documents that have the value in the field, alone or in a list. |
| Indexes.Index.HasEq | packages/minidb/src/index-manager.ts:279-284 | Says whether a document has the value in the field, alone or in a list. |
| Indexes.KeysAre | packages/minidb/src/index-manager.ts:220-244 | The keys of a document, by its field: the value, or every element of a list, numbers only in a range index, and nothing for a missing field of a sparse one. |
| Indexes.ListShowsKey | packages/minidb/src/index-manager.ts:220-268 | A range list has a number with a document, once, exactly when the document has that number in its field. |
| Indexes.Index.CheckUnique | packages/minidb/src/index-manager.ts:122-149 | Accepts a write exactly when no key would be shared by two documents. |
| Indexes.Index.CheckUniqueBatch | packages/minidb/src/index-manager.ts:151-191 | Accepts a batch exactly when no key would be shared after the last op per document, swaps and delete-then-reuse included. |
| Indexes.BatchLeaves | packages/minidb/src/index-manager.ts:151-191 | What the check foresees from the last op of each document is what applying the batch op by op leaves. |
| Indexes.BatchCheckMeans | packages/minidb/src/index-manager.ts:151-191 | The batch check in terms of documents: it accepts exactly the batches after which, applied op by op, no two documents share a key and no value that is not an object clashes. |
| Indexes.AcceptsExactlyWhen | packages/minidb/src/index-manager.ts:151-191 | What the batch check accepts is exactly a batch after which the index is unique and no value that is not an object clashes in a non-sparse equality index. |
| Indexes.PlainIsRejected | packages/minidb/src/index-manager.ts:151-191 | A concrete batch that is rejected although the index would be unique afterwards. |
| Indexes.UniqueOverRuns | packages/minidb/src/index.ts:856-878 | In every run of checked batches the index stays unique. |
| Query.QueryByColumn | packages/minidb/src/index.ts:1430-1497 | The fast path returns the live matching documents with a value within the bounds, in (value, key) order or its reverse, less the first skip, at most limit (a limit of zero acting as one). |
| Query.WalkIsFilterThenSort | packages/minidb/src/index.ts:1430-1497 | Walking the column and testing each document meets exactly what filtering and then sorting gives. |
| Query.CandidatesAreEnough | packages/minidb/src/index.ts:1387-1403 | Testing only the documents the indexes offer finds exactly what testing every live document finds. |
| Query.CandidatesKeepMatches | packages/minidb/src/index.ts:1346-1403 | The intersection of what the indexes offer contains every matching document. |
| Query.IndexedCandidates | packages/minidb/src/index.ts:1387-1403 | The loop computes that intersection over the conditions at the top and directly below an $and. |
| Query.OfferedIffNumber | packages/minidb/src/index.ts:1367-1383 | Where a range index answers, a matching document is offered if and only if its value is a number. |
| Query.NullIsLost | packages/minidb/src/index.ts:1367-1383 | A concrete document that matches a bound (null is not below zero) and is not offered. |
| QueryLaws.OrIsUnion | packages/minidb/src/query.ts:172-214 | The hits of an $or over two lists of filters are those of either list; over one filter, its hits; over none, nothing. |
| QueryLaws.AndIsIntersection | packages/minidb/src/query.ts:172-214 | The hits of an $and over two lists are those of both lists. |
| QueryLaws.NegationsAreComplements | packages/minidb/src/query.ts:172-214 | The hits of $nor are the documents outside those of $or, and of $not those outside its filter. |
| QueryLaws.ClausesIntersect | packages/minidb/src/query.ts:172-214 | The hits of a filter are what its clauses have in common. |
| QueryLaws.TestsIntersect | packages/minidb/src/query.ts:86-149 | Tests of one field are met together, and a literal is the test for equality. |
| QueryLaws.TestsAreComplements | packages/minidb/src/query.ts:86-149 | $ne is met by what does not meet $eq, $nin by what does not meet $in. |
| QueryLaws.InIsUnionOfEq | packages/minidb/src/query.ts:86-149 | $in over two lists is met by what meets it over either, over one value by what meets $eq, over none by nothing. |
| QueryLaws.EqFindsTheValue | packages/minidb/src/query.ts:86-149 | A document holding a value is found under it and under no other; one without the field only by its absence; a list by what it contains. |
| QueryLaws.OrderOfNumbers | packages/minidb/src/query.ts:86-149 | Over number-valued documents $gte is $gt and $eq apart, $lt and $lte are what is outside, and bounds further down are met by more. |
| QueryLaws.EqualityOffers | packages/minidb/src/index.ts:1346-1366 | An equality index offers exactly the documents that have the value in the field, alone or in a list; for $in those of any of its values. |
| QueryLaws.RangeOffers | packages/minidb/src/index.ts:1367-1383 | A range index offers for two bounds exactly the documents with a number between them in the field, strictly or not as the bounds say. |
| Assembly.ReplyIsAssembled | packages/kosong/src/generate.ts:181-257 | Whatever the order of the parts, every call ends with its header's arguments followed by its own deltas in order, calls keep header order, and content is that of the content parts. |
| Assembly.InterleavingDoesNotMatter | packages/kosong/src/generate.ts:181-257 | Two streams that differ only in how the deltas are interleaved give the same reply, or the same error. |
| Assembly.ContentIsConserved | packages/kosong/src/message.ts:171-202 | Merging loses, adds and reorders no letter of text or thought, no signature and no attachment. |
| Assembly.Generate | packages/kosong/src/generate.ts:181-300 | The loop with its pending part and index map computes that reply; for well routed parts with the outcome the parts call for. |
| Assembly.OutcomeIsRight | packages/kosong/src/generate.ts:258-300 | When a stream is a reply, on its parts alone: empty exactly without content and header; only thinking exactly with a thought, no header and no letter of text but spaces; a reply otherwise. |
| Replies.CallsCarryTheirHeaders | packages/kosong/src/generate.ts:181-257 | Call j of the reply is header j: its id, name and extras, and its arguments followed by every piece of its index. |
| Replies.HeadersAppend | packages/kosong/src/generate.ts:181-257 | The headers of a stream are its call parts, in order. |
| Replies.PiecesOfOne | packages/kosong/src/generate.ts:201-218 | A part is a piece of an index exactly if it is a delta that carries it and is not null. |
| Replies.PiecesAppend | packages/kosong/src/generate.ts:201-218 | The pieces of an index in two streams, one behind the other, are those of the first, then those of the second. |
| Replies.EveryCallIsReported | packages/kosong/src/generate.ts:226-236 | Every call whose block has ended has been reported, once, in the order of the headers. |
| Replies.HeaderSplitsBlocks | packages/kosong/src/generate.ts:215-237 | A header ends the block before it. |
| Replies.BlocksAreMerged | packages/kosong/src/message.ts:171-202 | Without a header between them, neighbouring blocks never could be one. |
| Replies.ReplyInSequence | packages/kosong/src/generate.ts:215-257 | In a stream without indices every call is its header with the deltas that follow it. |
| Replies.DeltasExtendTheirCall | packages/kosong/src/generate.ts:215-257 | A header and the deltas behind it make one call with its arguments joined; content between calls changes none. |
| Assembly.ReadyIsCompleteSoFar | packages/kosong/src/generate.ts:226-236 | What is reported ready when a block ends is the call with the deltas so far. |
| Assembly.EarlyIsFinalIff | packages/kosong/src/generate.ts:226-236 | It equals the final call if and only if no later delta for its index says anything. |
| Normalize.NormalizedIsLegal | packages/kosong/src/normalize.ts:96-242 | Whatever the history, the result is legal: names not blank, arguments blank or a JSON object, calls and results matched as multisets in the adjacent block, no other results. |
| Normalize.NormalizedIsFixed | packages/kosong/src/normalize.ts:96-101 | Normalising twice is normalising once. |
| Normalize.ReportedIffNotLegal | packages/kosong/src/normalize.ts:136-183 | A repair is reported if and only if the history was not legal; a legal one passes unchanged. |
| Normalize.OthersAreKept | packages/kosong/src/normalize.ts:136-183 | Every message that is no tool result is kept in order, only its calls repaired. |
| Normalize.RepairedCallsAreGood | packages/kosong/src/normalize.ts:186-233 | Repaired calls are well formed, keep their ids and their number; good calls stay as they are. |
| Normalize.PlaceholdersAreFresh | packages/kosong/src/normalize.ts:186-242 | No two calls get the same placeholder, and none gets a name that a call already had. |
| Normalize.PlaceholderToolName | packages/kosong/src/normalize.ts:236-242 | The search ends with the first free name. |
| Normalize.IsHealthy | packages/kosong/src/normalize.ts:103-134 | The one-pass check with its multiset of open calls accepts exactly the legal histories. |
| Normalize.NormalizeMessagesForWire | packages/kosong/src/normalize.ts:96-183 | The loops compute the legal fixed point and its reports. |
| Wire.LegalByPosition | packages/kosong/src/normalize.ts:103-134 | The legal histories told by position: every message with calls is answered, call by call, right behind it, and every result is owned. |
| Wire.BlockIsRepaired | packages/kosong/src/normalize.ts:136-183 | What becomes of a message with calls and its results: its calls repaired, the results that answer a call kept in order and no other, then placeholders for exactly the calls without one, then the rest. |
| Wire.KeptIff | packages/kosong/src/normalize.ts:136-183 | A result stays exactly when fewer results with its id came before it than there are calls with that id. |
| Wire.RepairsAreReported | packages/kosong/src/normalize.ts:136-183 | The reports account for the difference: for each id, results before plus placeholders reported equal results after plus drops reported, and each blank name and each bad argument is reported once. |
| Wire.ReportNamesTheRepair | packages/kosong/src/normalize.ts:186-233 | A bad argument is reported closed exactly if something else than the empty object is sent on, as no object exactly if it was JSON, as lost otherwise. |
| Wire.OneCallRepaired | packages/kosong/src/normalize.ts:186-233 | A repaired call has its arguments repaired, its name unless that was blank, and all else as it was. |
| Wire.CutArgumentsComeBack | packages/kosong/src/normalize.ts:352-408 | Arguments that are no JSON come back as the JSON object that closing brackets make of them, where they do. |
| Wire.LackingBracketsIsNoJson | packages/kosong/src/normalize.ts:352-408 | A text that lacks closing brackets of a JSON text is none itself. |
| Wire.OtherArguments | packages/kosong/src/normalize.ts:186-233 | Good arguments stay; JSON that is no object is replaced by an empty object. |
| Json.JsonIsBalanced | packages/kosong/src/normalize.ts:316-341 | The balance pre-scan never rejects a JSON text (section 2 of RFC 8259). |
| Json.IsBalancedJsonCandidate | packages/kosong/src/normalize.ts:316-341 | The loop accepts exactly the texts that end outside a string with all brackets closed and never one too many. |
| Json.CloseFindsCompletion | packages/kosong/src/normalize.ts:352-408 | If any closing brackets complete the tidied text to JSON, closing finds exactly those. |
| Json.LostBracketsComeBack | packages/kosong/src/normalize.ts:352-408 | A JSON text that lost only closing brackets gets exactly those back. |
| Json.ClosedIsJson | packages/kosong/src/normalize.ts:352-408 | Whatever the text, what closing gives is a JSON text. |
| JsonTexts.PrintedIsJson | packages/kosong/src/normalize.ts:291-315 | Every JSON value, however spaced, has a text that parses, and parses to an object exactly if it is one. |
| JsonTexts.CutTextComesBack | packages/kosong/src/normalize.ts:352-408 | A text that closing brackets complete to JSON is closed to exactly that. |
| Json.CloseTruncatedJson | packages/kosong/src/normalize.ts:352-408 | The scan, the tidying loop and the closing loop compute that result, or `{}`. |
| Utf8.Validate | packages/kaos/src/local.ts:994-1045 | For every way of cutting the input into chunks the validator accepts exactly the byte strings of section 4 of RFC 3629. |
| Utf8.ValidIffAccepted | packages/kaos/src/local.ts:994-1045 | The state machine with its lower and upper bounds accepts exactly the grammar. |
| Utf8.DecodeUndoesEncode | packages/kaos/src/internal.ts:7-82 | Decoding undoes encoding for every sequence of scalar values. |
| Utf8.EncodeUndoesDecodeIff | packages/kaos/src/internal.ts:7-82 | Encoding what was decoded gives the input back if and only if the input is valid UTF-8. |
| Utf8.DecodedAppend | packages/kaos/src/internal.ts:7-82 | Valid bytes in front are decoded as if nothing followed. |
| Utf8.BadByteIsDropped | packages/kaos/src/internal.ts:7-82 | A byte behind valid text that starts no character is dropped, and nothing else is. |
| Utf8.DecodeUtf8Ignore | packages/kaos/src/internal.ts:7-82 | The loop decodes every character of the grammar and skips every other byte. |
| Lines.ReadTailLines | packages/kaos/src/local.ts:701-747 | The backward block scan returns exactly the last N lines, for any block size. |
| Lines.ReadLines | packages/kaos/src/local.ts:749-806 | The chunked reader yields exactly the wanted window of lines for any way the reads cut the file, each with whether it is the first of the file. |
| Lines.LinesAre | packages/kaos/src/local.ts:749-806 | What lines are: put together they are the text, none is empty, and a newline stands at the end of each but perhaps the last, and nowhere else. |

## Left out

- Crash.DurableAtEveryCrashPoint: WAL writes are assumed not to fail, so the error branch of a compaction and I/O errors of the log are not steps; fsync is taken as done when bytes land; installing the new log, remapping and reopening readers is one step, as are append and apply.
- Wal.WAL.FrameSits: short writes are arbitrary, but no write fails; a batch's promise resolves when its last byte is written.
- Rotation.CopyTail: other writers append finitely much while the copy runs.
- Lock.AtMostOneHolder: one contender per process, and a process id is never used again; the EPERM retries of a rename are one failing or retrying step.
- Replicas.PollsFollow: the full replay it is compared with is the strict one; the resync one is the same when the torn tail is barren.
- SkipLists.SkipList.Range: at most one lower and one upper bound; iterate() yields the same entries lazily and is not modelled apart from it.
- TextIndexes.TextIndex.Search: key sets, not scores and their order; a document is the sequence of terms its tokenizer gives, so the tokenizer itself is not part of this model.
- TextIndexes.TextIndex.Visit: the stream yields each key at most once and each document as it is at that moment; a key deleted and written again during a build could be yielded twice.
- Postings.Uint32RoundTrip: JavaScript's shifts are modelled by truncation to 32 bits, for input longer than five bytes as rejection.
- Memory.Commit: memory mode, with no other write between making room and applying; the writes of evictions to the log are not part of it.
- Derived.Database.FailedWrite: no other write to the key between apply and rollback; for a batch, as for one write, no previous record expires in between.
- Indexes.Index.Add: values are told apart as the canonical key does, so stringifying objects is not modelled; numbers are reals, without NaN.
- DtIndexes.DtIndex.Set: a column or a group is its sorted sequence; that the skip list is one is the result about the list.
- Query.QueryByColumn: field paths are single names; no RegExp conditions, and no coercion of strings or lists in comparisons with numbers.
- Query.CandidatesAreEnough: conditions other than undefined, and number-valued fields where a range index answers; see Query.OfferedIffNumber for why.
- Assembly.ReplyIsAssembled: every delta carries the index of an earlier header; streams without any index are the matter of Replies.ReplyInSequence; streams that mix deltas with and without an index, and the abort signal, are not part of either statement (the loop itself is modelled for any parts).
- Normalize.NormalizedIsLegal: JSON.parse is the grammar of RFC 8259; strings are sequences of Unicode characters; the verdict cache per call is left out, as it changes no verdict.
- Json.CloseTruncatedJson: what closing makes of a text that brackets alone do not complete is only that it is a JSON text.
- Lines.ReadLines: lines are bytes; decoding them is `Utf8.dfy`'s matter, and only the place of a line is handed on.
- The error offsets thrown from inside FrameParser.feed, and the parser's incremental feeding.
- RESP server sockets, the cluster layer, backup and restore, definition sidecar files, statistics and benches.
- Providers, catalogs, rate limits and usage of the message layer; SSH, processes and terminals of the file layer; scanTextFile's line-ending flags.
- The SDK, OAuth, the applications and agent-core: plumbing over libraries.
