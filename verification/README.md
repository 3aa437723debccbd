# littlefs-rust-core in Dafny

This project models the core of littlefs-rust-core, a power-loss-resilient
filesystem in the littlefs v2 disk format, and proves what it is built to keep.

**The metadata log.** A directory is a log of tags. `MetadataLog` defines what a
log means by replaying it forwards. The traversal that compacts it
(`Traverse`, `Compaction`, `TraverseMachine`, `FilterWord`), the backward
lookup (`GetSlice`) and the search for a name (`NameSearch`) are each proved to
agree with the replay. `Layout`, `Crc`, `Commit`, `Fetch` and `MetadataPair`
go down to bytes: a finished commit is read back whole, and a commit cut short
at any byte leaves the old state or the new one. `PowerLoss` puts the pieces
together, from the first attribute of a commit to the lookup after it.

**The global state.** `GState` and `TailList` model the deltas spread over the
metadata pairs and show that they always add up to the state on disk, across
appends, compactions, splits, relocations and drops. `Rename` and
`MoveProtocol` show when a rename, made of commits to that list, is atomic under
power losses and recoveries: with parents and predecessors committed to in place,
at every point and for every outcome but one, whose effects are stated exactly.
`Slots` says what the directories show while parents and list disagree, `Deorphan`
what the recovery does to the list, `Tortoise` that walking the list ends,
`Handles` that open handles follow their entries, and `PathFind` that paths mean
what they should.

**Files.** `Util` and `CtzIndex` prove the bit tricks and the closed-form index
of the skip lists on 32-bit words; `SkipList` and `Extend` the searches and the
copy-on-write extension; `File` that reading and writing refine an array of
bytes while the committed file stays intact.

**Blocks.** `Allocator` proves that no block is handed out twice, `BlockCache`
that the two caches are invisible. `Volume` states for `File` what these two
provide, a block not in use and programs that read back, and shows that programs
and flushes through the caches keep the second.

Multi-byte values are little-endian as on disk, tag words big-endian. Randomness
of failures, the contents of erased blocks and the outcome of a commit (append,
compaction, split, relocation) are parameters that may be anything. A CRC that
passes over bytes that were never programmed is excluded by name (`Forged`).

Results where the code does not meet what its comments or the property suggest
are stated as exact conditions:

- `lfs_npw2(1)` is 1, although its comment promises the smallest power of two
  that is not smaller (`Util.Npw2Corners`); callers never pass it.
- The lookahead offset overflows on devices of more than 2^31 blocks
  (`Allocator.WindowOffExact`).
- A read with hint zero at the start of a read unit would never end
  (`BlockCache.LoadCovers`); callers pass at least one.
- Right after a block was put behind a full one, a scan for free blocks does not
  find all blocks of the file being written (`Extend.ScanOfTip`); it matters only
  if the first program to that block fails and the next allocation has to scan.
- A commit that both splits and relocates its directory keeps the state in a pair
  that is not linked yet: a power loss before it is linked mounts the older state,
  although memory took the new one for stored. `TailList.Fs.CommitAndCrash` gives
  the exact condition, `TailList.MoveForgotten` the lost move,
  `TailList.Fs.MakeDirAndCrash` the same for a new directory.
- When the first commit of a rename to another directory splits and relocates that
  directory with the state in the new pair, and power is lost behind the commit to
  its parent, both names stay, without a move; if the parent is the directory
  moved from, another entry is taken out instead. `MoveProtocol.World.StartBehindParent`
  has the exact condition, `MoveProtocol.BothNames` and `MoveProtocol.AnotherGone`
  the inputs. The second commit, in that outcome, hides another entry until the
  recovery, if the new pair has a block of the old one
  (`MoveProtocol.World.FinishBehindParent`).
- In that outcome, with the parent being the directory moved from, the parent's
  entry is looked for with an id that is adjusted for the move twice, and without
  any power loss a neighbour may be made to name the directory
  (`TailList.ToldRight`, `TailList.ToldWrong`).
- The handle of a deleted file is cut off if and only if the walk along the tails
  fetches no other pair; deleted as the last entry of a pair with a hard tail, it
  names the first entry of the next one (`Handles.Handle.Fix`,
  `Handles.DeletedLastStaysOpen`).
- With a move pending and a greater name deleted, the search for a name ends in a
  pair although all its names are smaller (`NameSearch.SearchAnswers`,
  `NameSearch.StopsTooSoon`).
- The count a fetch finds is the writer's if and only if no name is given to an
  entry that was not created (`MetadataPair.CommitFetchRoundTrip`).
- `lfs_fs_deorphan` cuts the orphan count to a signed byte, so more than 128
  orphans are not counted down to zero (`GState.NoOrphansLeft`).
- While a move is pending, a lookup by the moved id answers "no entry" although
  the renumbered directory may have one there (`GetSlice.PendingMoveView`).

## Model

| member | source | states |
|---|---|---|
| Tags.PackUnpack | littlefs-rust-core/src/tag.rs:15-17 | Every tag whose fields are in range is recovered from its packed word, and the word is a valid tag |
| Tags.UnpackPack | littlefs-rust-core/src/tag.rs:70-151 | A valid word is exactly its class, chunk, id and size: extracting the fields and packing them again gives the word |
| Tags.UnpackDSize | littlefs-rust-core/src/tag.rs:161-163 | The size on disk computed on words, with "removed" as size 0x3ff, is that of the record |
| Tags.MatchesAll | littlefs-rust-core/src/dir/traverse.rs:346-389 | Masked equality of two words is equality of the masked fields |
| Tags.IdUp | littlefs-rust-core/src/tag.rs:135-137 | Adding `mktag(0, 1, 0)` to a word moves the id by one and touches nothing else |
| Tags.IdDown | littlefs-rust-core/src/tag.rs:135-137 | Subtracting `mktag(0, 1, 0)` moves the id down by one and touches nothing else |
| MetadataLog.ApplySlot | littlefs-rust-core/src/dir/traverse.rs:84-161 | One step of the forward replay seen from one slot: written, emptied, or what the entry held under the id it had before |
| MetadataLog.ApplyItemSlot | littlefs-rust-core/src/dir/traverse.rs:346-389 | The same for pending attributes, including a move, which writes exactly the slots it carries over |
| FilterWord.StepRefinesFilter | littlefs-rust-core/src/dir/traverse.rs:346-389 | The packed filter step (masks, id arithmetic, splice) decides and renumbers as the filter on records does, for all words |
| Compaction.SurvivorsMeaning | littlefs-rust-core/src/dir/traverse.rs:346-389 | The tags that no later tag filters out, with their moved ids, hold every slot of the full replay |
| Compaction.MoveMeaning | littlefs-rust-core/src/dir/traverse.rs:840-883 | What a move emits from its source log is exactly the structure and attribute slots of the source entry, under the new id |
| Compaction.CompactionPreservesMeaning | littlefs-rust-core/src/dir/commit.rs:1091-1107 | For every log plus pending attributes and every range begin..end, what a compaction writes replays to exactly those entries of the full replay, renumbered from zero |
| Compaction.CompactionEmitsOnce | littlefs-rust-core/src/dir/commit.rs:1091-1107 | A compaction emits every live slot at most once and no splice at all |
| Compaction.CompactionCount | littlefs-rust-core/src/dir/commit.rs:1291-1294 | When every entry of the range has a name, a fetch of what was written counts end - begin entries |
| TraverseMachine.NextTag | littlefs-rust-core/src/dir/traverse.rs:713-770 | Reading the next tag advances through the log, then the attributes, and yields exactly the first of what is left |
| TraverseMachine.GetNext | littlefs-rust-core/src/dir/traverse.rs:709-819 | The phase that fetches a tag, skips it, suspends for a filter pass or hands it on keeps what is still to be emitted |
| TraverseMachine.Dispatch | littlefs-rust-core/src/dir/traverse.rs:820-943 | Processing a tag emits exactly its share and keeps the rest; filtering, moves and splices included |
| TraverseMachine.Pop | littlefs-rust-core/src/dir/traverse.rs:944-983 | Resuming a suspended frame keeps what is still to be emitted |
| TraverseMachine.Run | littlefs-rust-core/src/dir/traverse.rs:664-986 | The explicit-stack traversal terminates, never holds more than two suspended frames, and emits exactly what the nested recursive traversal does |
| Layout.BeRoundTrip | littlefs-rust-core/src/dir/commit.rs:128-129 | Big-endian tag words survive being written and read |
| Layout.LeRoundTrip | littlefs-rust-core/src/dir/commit.rs:1055-1057 | Little-endian words survive being written and read |
| Layout.Unchain | littlefs-rust-core/src/dir/fetch.rs:405-416 | XORing with the previous tag undoes itself |
| Layout.HoldsSnoc | littlefs-rust-core/src/dir/commit.rs:106-167 | A block holds a log extended by a record exactly if it holds the log and the record behind it |
| Layout.HoldsElsewhere | littlefs-rust-core/src/dir/commit.rs:106-167 | Bytes behind a log do not change what log a block holds |
| GetSlice.BackIsReplay | littlefs-rust-core/src/dir/traverse.rs:84-161 | Backward lookup with the running id difference returns the value the forward replay holds, and nothing exactly when the slot is empty, removed or older than the CREATE of its entry |
| GetSlice.PendingMoveView | littlefs-rust-core/src/dir/traverse.rs:101-107 | While a move is pending the moved entry is not found; for the other ids the lookup is that of the log with the entry deleted if and only if the id is not the moved one or nothing is found behind it |
| GetSlice.Examine | littlefs-rust-core/src/dir/traverse.rs:109-158 | One tag read backwards from bytes: the chain word, the new id difference and whether the search stops |
| GetSlice.ReadBack | littlefs-rust-core/src/dir/traverse.rs:109-123 | Stepping back from a tag reads the tag before it |
| GetSlice.LookUp | littlefs-rust-core/src/dir/traverse.rs:84-161 | On the bytes of any block that holds a log, a lookup answers NoEntry or the tag and the slice of the payload asked for, zero-filled, exactly as the backward search on records does; for a slice that runs past the payload it says how much of the answer is payload |
| GetSlice.SliceFromStart | littlefs-rust-core/src/dir/traverse.rs:143-157 | From offset 0 the slice is the whole payload, cut or zero-filled to the buffer |
| Crc.ByteStepTable | littlefs-rust-core/src/crc.rs:43-52 | The two table lookups of a byte are eight steps of the bitwise CRC-32 |
| Crc.LfsCrc | littlefs-rust-core/src/crc.rs:43-52 | The nibble-table loop computes the bitwise CRC-32 of the whole buffer |
| Crc.Chunks | littlefs-rust-core/src/bd/bd.rs:348-379 | The CRC does not depend on how the data is cut into chunks |
| Crc.Residue | littlefs-rust-core/src/dir/commit.rs:429-460 | Data followed by its own little-endian CRC has CRC zero |
| Fetch.ScanBlock | littlefs-rust-core/src/dir/fetch.rs:369-533 | The scan loop terminates and ends in the state the step function leads to |
| Fetch.StepIsAfter | littlefs-rust-core/src/dir/fetch.rs:385-533 | A record written as the writer writes it is accepted as it is |
| Fetch.ScanHolds | littlefs-rust-core/src/dir/fetch.rs:385-454 | A block holding any log whose commits verify is scanned through that whole log |
| Commit.CommitEndBounds | littlefs-rust-core/src/dir/commit.rs:328-331 | The aligned end of a commit is within the block, behind its tags, and leaves room for the tags that close it |
| Commit.Writer.Append | littlefs-rust-core/src/dir/commit.rs:1773-1780 | A commit appended behind a fetched log starts consistent with it |
| Commit.Writer.Compact | littlefs-rust-core/src/dir/commit.rs:1011-1057 | A commit into an erased block starts with the revision and an empty log |
| Commit.Writer.Attr | littlefs-rust-core/src/dir/commit.rs:106-167 | An attribute is refused exactly when it does not fit; else the block holds the log with it, and nothing outside its bytes is programmed |
| Commit.Writer.Ccrc | littlefs-rust-core/src/dir/commit.rs:393-421 | A commit CRC covers the commit, stretches to the given offset and carries the perturb bit |
| Commit.Writer.Round | littlefs-rust-core/src/dir/commit.rs:336-427 | One round pads with a CCRC of at most 0x3fe bytes or closes the commit, and never leaves a gap too small for the rest |
| Commit.Writer.ForwardCrc | littlefs-rust-core/src/dir/commit.rs:342-391 | The fcrc is written exactly when a program unit lies behind the commit, over that unit |
| Commit.Writer.Finish | littlefs-rust-core/src/dir/commit.rs:318-460 | Closing a commit adds only CRC tags that tile up to the aligned end, leaves the block sealed, and reads itself back without finding corruption |
| MetadataPair.CommitFetchRoundTrip | littlefs-rust-core/src/dir/commit.rs:1726-1741 | Scanning a finished commit, whatever its attributes, program size and the erased byte behind it, ends at the offset and tag of the writer, with the tail and split the writer keeps, and with its count if and only if every name was given to an entry that is there |
| MetadataPair.TailIsWritten | littlefs-rust-core/src/dir/fetch.rs:498-517 | The tail and split a scan arrives at are those the writer keeps, for every log and all attributes |
| MetadataPair.CountIsWritten | littlefs-rust-core/src/dir/fetch.rs:477-483 | The count a scan arrives at is never below the writer's, and equal if and only if every name was given to an entry that is there |
| MetadataPair.CutIsSurvived | littlefs-rust-core/src/dir/fetch.rs:385-455 | Cut at any byte, a block is read up to the last commit whose crc was programmed whole, unless a crc passes over bytes behind the cut |
| MetadataPair.CountIsRead | littlefs-rust-core/src/dir/fetch.rs:477-482 | The count a fetch finds is the count of the log |
| MetadataPair.SealedIsErased | littlefs-rust-core/src/dir/fetch.rs:573-592 | A finished commit is found ready for the next one exactly when another tag still fits |
| MetadataPair.FetchPair | littlefs-rust-core/src/dir/fetch.rs:336-592 | The block with the newer revision is used, the other one if it holds no valid commit, neither if none does; also where reads fail from some byte of a block on, down to its revision |
| MetadataPair.AppendIsAtomic | littlefs-rust-core/src/dir/fetch.rs:418-455 | An append cut at any byte, also inside later padding crcs: unless a crc is forged, the pair is fetched as before until the first new crc is whole; from then on the same block is chosen, with the fields of the commits that survived |
| MetadataPair.CompactionIsAtomic | littlefs-rust-core/src/dir/fetch.rs:336-455 | A compaction cut at any byte, in either order of the blocks: the old block is chosen with what it held until the first crc is whole, unless a crc is forged and the revision of the new block is as new, so an older commit that an erase left readable does no harm; from then on, unless a crc is forged, the new block, with the fields of the new log |
| PowerLoss.AppendCommit | littlefs-rust-core/src/dir/commit.rs:1773-1857 | An append written attribute by attribute and closed: a fetch reads back the old log, the attributes and nothing but crc tags, with the fields the writer keeps; cut at any byte the pair is fetched as before, or with those fields |
| PowerLoss.CompactCommit | littlefs-rust-core/src/dir/commit.rs:1011-1294 | The same for a compaction into the other block, with the next revision: cut at any byte the old block is used as it was, or the new one with the fields its writer keeps |
| PowerLoss.CompactedLookup | littlefs-rust-core/src/dir/commit.rs:1091-1149 | A lookup in a compacted block, its tail, global state and crcs included, gives what the full replay of the old log and the attributes holds |
| PowerLoss.CompactedCount | littlefs-rust-core/src/dir/commit.rs:1291-1294 | A fetch of such a block counts end - begin entries, if all of them have names |
| PowerLoss.SealedIsOrderly | littlefs-rust-core/src/dir/fetch.rs:385-565 | Closing a commit leaves its log one that names can be searched in, with the same entries and the same search result |
| Util.Npw2IsLog | littlefs-rust-core/src/util.rs:47-58 | For every argument but 0 and 1 the shift cascade is the binary logarithm of a - 1, plus one |
| Util.Npw2IsSmallest | littlefs-rust-core/src/util.rs:47-58 | For arguments from 2 on it is the exponent of the smallest power of two that is not smaller |
| Util.Npw2Corners | littlefs-rust-core/src/util.rs:31-58 | For 1 the result is 1, not 0, and for 0 it is 32 |
| Util.CtzIsTrailing | littlefs-rust-core/src/util.rs:69-71 | The trick with a & -a counts the trailing zero bits of every non-zero word |
| Util.PopcCountsOnes | littlefs-rust-core/src/util.rs:84-88 | The three parallel additions count the one bits of every word |
| CtzIndex.IndexInBlock | littlefs-rust-core/src/file/ctz.rs:28-41 | The closed form finds the block whose data range holds the position and the offset behind its pointers, with no subtraction below zero |
| CtzIndex.IndexIsNaive | littlefs-rust-core/src/file/ctz.rs:28-41 | For every 32-bit position and block size from 128 on the closed form is the result of subtracting the block capacities one by one |
| CtzIndex.StartClosed | littlefs-rust-core/src/file/ctz.rs:28-41 | The sum of the capacities of the first n blocks in closed form, by population count |
| SkipList.FlatAt | littlefs-rust-core/src/file/ctz.rs:28-41 | The indexed block and offset hold the byte of the contents at that position |
| SkipList.Hop | littlefs-rust-core/src/file/ctz.rs:112-132 | Each hop follows a pointer that exists, does not pass the target, and uses up budget |
| SkipList.Find | littlefs-rust-core/src/file/ctz.rs:84-138 | The search returns the block and offset of every position in the file, within 2 * (floor(log2(blocks - 1)) + 1) hops; behind the end it returns the head |
| SkipList.Traverse | littlefs-rust-core/src/file/ctz.rs:188-238 | The walk terminates and visits what its two-pointer rule says |
| SkipList.VisitsAll | littlefs-rust-core/src/file/ctz.rs:188-238 | On a well-formed list the walk visits every block exactly once, from the last to the first |
| SkipList.JumpBack | littlefs-rust-core/src/file/ctz.rs:112-132 | Trailing zeros of a block number after a jump back by a power of two it is a multiple of |
| Extend.CopyHead | littlefs-rust-core/src/file/ctz.rs:387-413 | The first bytes of a block are copied one by one; only the new block is touched |
| Extend.WritePointers | littlefs-rust-core/src/file/ctz.rs:415-454 | The pointers written to a new block m name the blocks m - 2^k for every k up to ctz(m), each read out of the block before |
| Extend.Attempt | littlefs-rust-core/src/file/ctz.rs:361-458 | One attempt either fails or extends the list and its contents as stated for GrowList |
| Extend.SwapLast | littlefs-rust-core/src/file/ctz.rs:387-413 | A block with the same leading bytes can take the place of the last block: same structure, same contents |
| Extend.GrowList | littlefs-rust-core/src/file/ctz.rs:347-461 | Extension keeps all pointers in place and the contents unchanged, writes to no block in use, and returns the place of the next byte; bad blocks are passed over |
| Extend.ScanOfTip | littlefs-rust-core/src/fs/traverse.rs:219-229 | The walk a scan for free blocks makes from the block being written, with the position as its size, finds exactly the blocks of that list if and only if the block already holds a byte |
| Volume.Volume.Alloc | littlefs-rust-core/src/block_alloc/alloc.rs:201-257 | A block that is not in use, or none when every candidate is |
| Volume.Volume.Prog | littlefs-rust-core/src/bd/bd.rs:550-612 | Programming upwards: success shows the bytes, failure keeps what lies before them, no other block is touched |
| Volume.ProgThroughCache | littlefs-rust-core/src/bd/bd.rs:550-612 | Programming in order through the program cache keeps that promise for what reads see |
| Volume.SyncThroughCache | littlefs-rust-core/src/bd/bd.rs:420-463 | Flushing the program cache, also when it fails, keeps what reads saw up to the end of the cached bytes |
| File.File.Relocate | littlefs-rust-core/src/file/ops.rs:539-620 | Moving the block being written to a fresh one keeps the contents and every block of the flushed file |
| File.File.Program | littlefs-rust-core/src/file/ops.rs:1198-1225 | A program step appends the bytes to what is written, through any number of relocations |
| File.File.NextBlock | littlefs-rust-core/src/file/ops.rs:1157-1196 | A block with room is found: the list behind the position is extended or its last block copied, the contents before the position kept |
| File.File.FlushedWrite | littlefs-rust-core/src/file/ops.rs:1129-1231 | The contents are overwritten at the position: old[..p] ++ data ++ old[p + n..]; no block reachable from the committed head is modified |
| File.File.FlushedRead | littlefs-rust-core/src/file/ops.rs:944-1017 | Reading returns exactly the bytes of the contents at the position, clipped at the end |
| File.File.CopyRest | littlefs-rust-core/src/file/ops.rs:754-782 | Flushing copies the rest of the old file behind the position without changing the contents |
| File.File.SyncTip | littlefs-rust-core/src/file/ops.rs:784-795 | Writing the cache out, relocating as long as that fails, keeps the contents |
| File.File.Flush | littlefs-rust-core/src/file/ops.rs:738-805 | After a flush the new head and size hold the same contents, the position is unchanged and the committed blocks are intact |
| File.File.Read | littlefs-rust-core/src/file/ops.rs:1024-1037 | A read sees everything written before it |
| File.File.FillGap | littlefs-rust-core/src/file/ops.rs:1298-1305 | The gap behind the end is filled with zeros |
| File.File.Write | littlefs-rust-core/src/file/ops.rs:1280-1311 | A write goes to the position, or to the end in append mode, filling a gap with zeros; it is refused exactly when it passes the largest file size |
| File.File.Seek | littlefs-rust-core/src/file/ops.rs:1319-1367 | Seeking changes the position only, also on the short way that keeps the block at hand |
| Allocator.WindowOffExact | littlefs-rust-core/src/block_alloc/alloc.rs:60-75 | The unsigned offset in the window is right for all blocks if and only if the device has at most 2^31 blocks |
| Allocator.Lookahead.Use | littlefs-rust-core/src/block_alloc/alloc.rs:144-200 | A handed-out block may be put to use without spoiling the window: it lies behind the cursor |
| Allocator.Lookahead.Checkpoint | littlefs-rust-core/src/block_alloc/alloc.rs:21-23 | A checkpoint keeps the invariant size - next <= ckpoint |
| Allocator.Lookahead.Mark | littlefs-rust-core/src/block_alloc/alloc.rs:60-75 | Exactly the bit of the block is set, if the window has one |
| Allocator.Lookahead.Scan | littlefs-rust-core/src/block_alloc/alloc.rs:106-142 | The window moves on to the cursor, is as large as buffer and checkpoint allow, and marks every block in use; if the traversal fails, after any number of blocks, the window is given up |
| Allocator.Lookahead.Advance | littlefs-rust-core/src/block_alloc/alloc.rs:207-232 | The cursor hands out an unmarked block, which is neither in use nor handed out, or passes a marked one; ckpoint does not underflow |
| Allocator.Lookahead.Alloc | littlefs-rust-core/src/block_alloc/alloc.rs:201-257 | Every block returned is neither in use nor handed out since the checkpoint, across wrap-around; NoSpace means that each block of the device was handed out or passed over as reported since then; a failed scan drops the window; it terminates |
| Allocator.MarkMarks | littlefs-rust-core/src/block_alloc/alloc.rs:60-75 | Setting the bit at the window offset marks the block at that place and no other |
| BlockCache.LoadCovers | littlefs-rust-core/src/bd/bd.rs:218-234 | Loading the read cache covers the position if and only if the hint is not zero or the position is not at the start of a unit |
| BlockCache.Load | littlefs-rust-core/src/bd/bd.rs:218-247 | The read cache is filled from the device, in whole units, and stays true to it also when the read fails |
| BlockCache.ReadCached | littlefs-rust-core/src/bd/bd.rs:157-197 | Bytes come from the program cache or the read cache; else the gap before the program cache is found, at least one read unit wide |
| BlockCache.Read | littlefs-rust-core/src/bd/bd.rs:134-250 | Any range is read as the device bytes overlaid by the program cache; the read cache stays coherent, the loop terminates, out-of-range requests fail |
| BlockCache.Cmp | littlefs-rust-core/src/bd/bd.rs:283-321 | The comparison in chunks of eight is the order of the whole ranges |
| BlockCache.Verify | littlefs-rust-core/src/bd/bd.rs:448-457 | Success of the read-back means that the device has the bytes |
| BlockCache.Flush | littlefs-rust-core/src/bd/bd.rs:420-463 | The cached bytes reach the device and nothing else of the block changes before their end; on failure the cache still holds them |
| BlockCache.Fill | littlefs-rust-core/src/bd/bd.rs:567-597 | Bytes put into the program cache are seen by reads at once, behind what was seen before |
| BlockCache.Prog | littlefs-rust-core/src/bd/bd.rs:550-612 | Bytes programmed in order are what reads see from then on; if it fails, what lies before is still seen; no other block is touched |
| BlockCache.CompareFirst | littlefs-rust-core/src/bd/bd.rs:307-316 | The first difference decides the order of two equally long strings |
| GState.PrepMoveSets | littlefs-rust-core/src/fs/superblock.rs:43-61 | Recording or clearing a move sets exactly its id and pair and keeps the orphans |
| GState.PrepOrphansCounts | littlefs-rust-core/src/fs/superblock.rs:27-38 | Counting an orphan up or down keeps the move and makes the flag say whether any are left |
| GState.NoOrphansLeft | littlefs-rust-core/src/fs/superblock.rs:442-443 | Taking the whole count back, cut to a signed byte, leaves no orphans if and only if there were at most 128 |
| GState.OneOrphanMore | littlefs-rust-core/src/fs/superblock.rs:27-38 | One orphan more keeps the move, and one less after it gives the same state, also if the move was taken out in between |
| GState.MountedKeeps | littlefs-rust-core/src/fs/mount.rs:365-371 | What a mount makes of the stored state names the same move and counts an orphan exactly if there were any |
| GState.MountedMove | littlefs-rust-core/src/fs/mount.rs:365-371 | Whatever the flag says, the mount finds the move that was stored |
| GState.XorExchange | littlefs-rust-core/src/lfs_gstate.rs:36-40 | Deltas may be combined in any grouping |
| TailList.FoldReplaced | littlefs-rust-core/src/fs/mount.rs:348-359 | How the XOR over the list changes when a pair is rewritten and those behind it are replaced |
| TailList.Fs.AppendState | littlefs-rust-core/src/dir/commit.rs:1804-1830 | The delta of an append is the stored one XORed with the masked change of the state |
| TailList.Fs.CompactState | littlefs-rust-core/src/dir/commit.rs:1191-1215 | The delta of a compaction is the stored one with the change of the state, or without it if the pair was relocated; none is written for zero |
| TailList.Fs.InPlace | littlefs-rust-core/src/dir/commit.rs:1191-1301 | A commit in place, split or not, and wherever the split puts its delta, brings exactly the change of the state to the list |
| TailList.Fs.Elsewhere | littlefs-rust-core/src/dir/commit.rs:1195-1215 | A relocated directory carries only what was taken over from dropped pairs, unless its split-off part took the state |
| TailList.Fs.Commit | littlefs-rust-core/src/dir/commit.rs:1709-1874 | After every commit the XOR of the deltas is the state on disk up to what linking still owes; only a split together with a relocation owes anything |
| TailList.Fs.Link | littlefs-rust-core/src/dir/commit.rs:2283-2328 | Pointing the predecessor at the relocated pairs settles what is owed; a move pending there is finished along with it |
| TailList.Fs.CommitToParent | littlefs-rust-core/src/dir/commit.rs:2219-2272 | The commit to the parent of a directory that moved: the entry it changes, a move pending there finished along with it, an orphan counted on disk and taken back in memory; what is owed stays as it is |
| TailList.ToldRight | littlefs-rust-core/src/dir/commit.rs:2219-2240 | The entry changed is the one that names the directory if and only if the pending move is not in the state on disk yet, or the entry comes no later than right behind the moved one |
| TailList.ToldWrong | littlefs-rust-core/src/dir/commit.rs:2219-2240 | Three entries, the first one moved: the second one is made to name the directory instead of the third |
| TailList.Fs.CommitAndLink | littlefs-rust-core/src/dir/commit.rs:2119-2330 | However often predecessors split or relocate in turn, with or without a commit to a parent each time, the chain of commits ends with the deltas adding up to the state in memory, which has changed at most by finishing the move |
| TailList.Fs.CommitBeside | littlefs-rust-core/src/dir/commit.rs:2219-2272 | A commit to another pair while one is unlinked leaves what is owed as it is |
| TailList.Fs.MakeDir | littlefs-rust-core/src/dir/commit.rs:513-540 | A new directory written before it is linked takes the change of the state with it |
| TailList.Fs.Drop | littlefs-rust-core/src/dir/commit.rs:581-600 | Dropping a pair keeps its delta in the list |
| TailList.Fs.constructor | littlefs-rust-core/src/fs/mount.rs:348-371 | A mount takes the sum of the deltas for the state in memory and on disk, the orphan count made from the flag |
| TailList.Fs.CrashAndMount | littlefs-rust-core/src/fs/mount.rs:348-371 | After a power loss at any point the list is as it was and the mounted state is the sum of its deltas |
| TailList.Fs.CommitAndCrash | littlefs-rust-core/src/dir/commit.rs:1709-1874 | A commit and then a power loss: the mounted state is the new one if the commit stayed in place and the old one otherwise; it is what memory took for the state on disk if and only if the commit did not split and relocate at once with the state going into the new pair, or the state did not change |
| TailList.Fs.MakeDirAndCrash | littlefs-rust-core/src/dir/commit.rs:513-540 | A new directory written and then a power loss before it is linked: the old state is mounted, which is what memory took for the one on disk if and only if the state did not change |
| TailList.Fs.BehindParent | littlefs-rust-core/src/dir/commit.rs:2182-2272 | A commit written elsewhere, the commit to the parent, and then a power loss: what the mount finds for every outcome, and that it is what the parent took for the state on disk if and only if the first commit did not take the state into an unlinked pair, or it did not change |
| TailList.MoveForgotten | littlefs-rust-core/src/dir/commit.rs:1191-1301 | Such a commit exists for every move: memory takes the move for stored, and the mount does not find it |
| Rename.RenameMeaning | littlefs-rust-core/src/fs/rename.rs:312-339 | The five attributes of a rename replay to the directory with the new entry in place, the replaced one gone and, within one directory, the old one deleted |
| Rename.SameDirectory | littlefs-rust-core/src/fs/rename.rs:254-282 | Within one directory the adjusted id deletes the old entry and no other; everything else stays in order |
| Rename.RenameAttrsApart | littlefs-rust-core/src/fs/rename.rs:312-338 | The attributes of a rename meet the condition of the compaction theorem on every log |
| Slots.WroteShows | littlefs-rust-core/src/dir/commit.rs:1191-1301 | A directory written in place or elsewhere, split or not, shows the entries of the commit, and no other directory changes |
| Slots.BesideKeeps | littlefs-rust-core/src/dir/commit.rs:2219-2272 | A commit to a parent changes nothing of what the directories show, but where a directory is, also when it finishes the pending move |
| Slots.LinkKeeps | littlefs-rust-core/src/dir/commit.rs:2274-2328 | Linking what is seen, with the commit to the predecessor, changes nothing of what the directories show |
| MoveProtocol.World.WriteBehind | littlefs-rust-core/src/dir/commit.rs:2182-2272 | A commit cut behind the commit to the parent shows its entries under its state, unless it took the state into an unlinked pair |
| MoveProtocol.World.WriteLinked | littlefs-rust-core/src/dir/commit.rs:2182-2328 | A commit that splits or relocates and is linked, with the commits to parent and predecessor, shows its entries under its state, whatever the outcome |
| MoveProtocol.World.Start | littlefs-rust-core/src/fs/rename.rs:307-341 | The first commit, the replay of its five attributes, makes the directories and deltas on disk amount to the file system after the rename, in one stroke, whether it stays in place, splits, relocates, or is cut behind the commit to a parent; cut before that it changes nothing |
| MoveProtocol.World.Finish | littlefs-rust-core/src/fs/superblock.rs:151-178 | The commit that takes the old entry out, the second one of the rename or the one of the recovery, changes nothing of what the disk amounts to and leaves no move, in all those outcomes |
| MoveProtocol.World.Relink | littlefs-rust-core/src/fs/superblock.rs:345-402 | Linking what a parent names changes nothing of what the disk amounts to |
| MoveProtocol.World.CrashAndMount | littlefs-rust-core/src/fs/mount.rs:348-371 | A power loss leaves list, directories and move as they are on disk |
| MoveProtocol.World.RenameAcross | littlefs-rust-core/src/fs/rename.rs:307-352 | With the first commit in any of these outcomes or missing, and then any sequence of power losses and recoveries, cut short or not, the disk amounts to the state before the rename or the one after it; after a recovery that went through no move is left |
| MoveProtocol.World.StartBehindParent | littlefs-rust-core/src/dir/commit.rs:2182-2272 | The first commit written elsewhere and power lost behind the commit to the parent, for every outcome: a move is mounted if and only if the state went into an unlinked pair exactly when the parent is the directory moved from; the disk amounts to the renamed state if and only if the state did not go into an unlinked pair, or the parent is the directory moved from and the old entry its last; else both names are there, or one entry too many is gone |
| MoveProtocol.World.FinishBehindParent | littlefs-rust-core/src/dir/commit.rs:2182-2272 | The second commit written elsewhere and power lost behind the commit to the parent, for every outcome: the move is still mounted if and only if the state went into an unlinked pair; the directories are shown as before if and only if it did not, or the new pair has no block of the old one, or no entry left in it has the id of the move |
| MoveProtocol.BothNames | littlefs-rust-core/src/dir/commit.rs:2182-2272 | A file system with both names and no move, after a rename into a worn directory of the root |
| MoveProtocol.AnotherGone | littlefs-rust-core/src/dir/commit.rs:2219-2272 | A file system in which the entry behind the old one is gone too, after a rename from the root into a worn directory of it |
| MoveProtocol.ExactlyOne | littlefs-rust-core/src/fs/rename.rs:307-352 | In the renamed state the old name is gone, the new one holds all the old entry held but its name, and nothing else changed |
| Tortoise.Hare.Detect | littlefs-rust-core/src/fs/mount.rs:18-40 | One step of the detection: a hit is reported exactly when the tail is in sync with the tortoise |
| Tortoise.MetInTime | littlefs-rust-core/src/fs/mount.rs:18-40 | A cycle is met within three times its lead and length |
| Tortoise.PlacedNext | littlefs-rust-core/src/fs/mount.rs:32-37 | The tortoise stands at pair 2^j - 2 while the next 2^j pairs are looked at |
| Tortoise.Short | littlefs-rust-core/src/fs/mount.rs:254-263 | Any walk that has met neither the end nor the tortoise is at most three times as long as the number of directories, plus two |
| Tortoise.WalkTails | littlefs-rust-core/src/fs/mount.rs:254-263 | A cycle is reported if and only if the list never ends, within linearly many steps; else the whole list was visited |
| PathFind.Cancelled | littlefs-rust-core/src/dir/find.rs:239-261 | A name whose ".." is found ahead can be skipped with all up to it |
| PathFind.Kept | littlefs-rust-core/src/dir/find.rs:239-261 | A name without one stays at the bottom of whatever the rest of the path leaves |
| PathFind.LookAhead | littlefs-rust-core/src/dir/find.rs:239-261 | The depth counter finds the ".." that takes a name back, and what follows it |
| PathFind.Find | littlefs-rust-core/src/dir/find.rs:198-316 | Resolving with lookahead is splitting the path, cancelling ".." on a stack, and walking down: same node, same error |
| NameSearch.ScanTells | littlefs-rust-core/src/dir/fetch.rs:477-564 | After every log, crcs, tails and global state included, the best tag is the entry with the name or the place the name would go |
| NameSearch.SearchAnswers | littlefs-rust-core/src/dir/fetch.rs:594-642 | The search finds an entry exactly if the directory shows one with the name; the entry a pending move hides does not resolve, and those behind it are counted without it; it goes on to the next pair exactly if all names are smaller and, when a move is pending, all names in the log were, those of deleted entries included |
| NameSearch.NothingWhen | littlefs-rust-core/src/dir/fetch.rs:477-564 | The scan remembers no tag exactly if no name in the log is equal or greater |
| NameSearch.StopsTooSoon | littlefs-rust-core/src/dir/fetch.rs:594-642 | A log and a pending move for which the search ends in this pair although every name of it is smaller |
| NameSearch.CreatedInOrder | littlefs-rust-core/src/dir/fetch.rs:622-642 | A new entry with the name, created at the place the search gives, keeps the directory in order |
| NameSearch.AsidesStayOrderly | littlefs-rust-core/src/dir/fetch.rs:385-565 | Tags that are not about entries change neither the order of a log nor the result of the search |
| NameSearch.Search | littlefs-rust-core/src/dir/fetch.rs:385-565 | The loop computes that answer |
| NameSearch.FindMatchOrders | littlefs-rust-core/src/dir/find.rs:61-83 | The comparison, in which a longer name comes before its own prefix, is transitive for whatever name is looked for |
| NameSearch.FindMatchExact | littlefs-rust-core/src/dir/find.rs:61-83 | It says equal exactly for equal names, and is antisymmetric |
| NameSearch.FindMatchOnDisk | littlefs-rust-core/src/dir/find.rs:61-83 | The comparison with the name on disk, through the caches, is that order |
| NameSearch.SortedForAll | littlefs-rust-core/src/dir/find.rs:61-83 | Entries sorted by it are sorted for every name one may look for |
| Handles.TrackIsOrigin | littlefs-rust-core/src/dir/commit.rs:1890-1910 | Following an entry through creations and deletions and looking back for its origin agree; a deleted entry has no successor |
| Handles.EntryFollows | littlefs-rust-core/src/dir/commit.rs:1890-1910 | The tracked id shows every slot the commit did not write as the old id did |
| Handles.HandleFollows | littlefs-rust-core/src/dir/commit.rs:643-697 | In a split directory the pair and id found for a handle show what the old ones showed |
| Handles.Handle.Fix | littlefs-rust-core/src/dir/commit.rs:1876-1922 | Every other handle gets the id of its entry, or of the one behind a deleted one, and is walked along the hard tails to the pair that holds it; it ends up without a pair if and only if its entry is deleted and the walk fetches no other pair |
| Handles.TrackIsPlace | littlefs-rust-core/src/dir/commit.rs:1886-1910 | The id kept in a handle is that of its entry as long as the entry is there |
| Handles.DeletedLastStaysOpen | littlefs-rust-core/src/dir/commit.rs:1897-1917 | Deleting the last entry of a pair with a hard tail: its handle is not cut off but names the first entry of the next pair |
| Deorphan.Recovery.Relink | littlefs-rust-core/src/fs/superblock.rs:376-396 | A commit to the predecessor puts other pairs in place of the next one and keeps the state |
| Deorphan.Recovery.SyncTails | littlefs-rust-core/src/fs/superblock.rs:345-402 | After the first pass every head that has a parent is linked under the pair its parent names, with the entries written there; all other pairs and entries, their order, and the global XOR stay |
| Deorphan.Recovery.DropOrphans | littlefs-rust-core/src/fs/superblock.rs:404-437 | After the second pass exactly the heads without a parent are gone; all others stay in order with their contents; the global XOR stays, or becomes the state in memory where that was ahead of the disk |
| Deorphan.Recovery.Mend | littlefs-rust-core/src/fs/superblock.rs:318-444 | Both passes together: which mdirs stay, in which order, where and with which contents; the global XOR as for one pass; and the orphan count zero if and only if it was at most 128 |

## Left out

- GetSlice.LookUp: masks that test a part of the chunk only (0x780, which tells the superblock name from others) are not covered; the bytes of a slice behind its payload are not named.
- MetadataPair.AppendIsAtomic: says nothing about a cut whose CRC check passes over bytes that were never programmed.
- MetadataPair.CompactionIsAtomic: the same.
- MetadataPair.CommitFetchRoundTrip: the count is compared for attributes that keep it between 0 and 0xfc00; the superblock's attributes are not among them.
- MetadataPair.FetchPair: errors other than Corrupt end the fetch and are not followed; a block is what of it can be read.
- Compaction.CompactionPreservesMeaning: asks that no attribute of the commit writes a slot of the entry a move of the same commit fills; `Rename.RenameAttrsApart` shows that renames meet it.
- TailList.Fs.CommitBeside: the commit to the parent is taken to stay in place; if the parent relocates too, the source leaves the child to a later deorphan.
- TailList.Fs.CommitToParent: the same; the parent is not split either.
- TailList.Fs.CommitAndLink: the same.
- Deorphan.Recovery.Mend: commits do not relocate, orphans are unsplit and empty, relocated copies were not split, carry the delta of the pair they replace and name the same directories, and no move is pending; with a split orphan its rest would become part of the directory before it.
- Deorphan.Recovery.SyncTails: the pair just relinked is not looked at a second time, as the source does; it would be found in sync.
- MoveProtocol.World.RenameAcross: parents and predecessors are committed to in place and unsplit, and only where the list links them as they are seen; `CanHappen` and `Allowed` say which commits that covers. The outcome they exclude at a commit to a linked parent is the one of `MoveProtocol.World.StartBehindParent` and `MoveProtocol.World.FinishBehindParent`. Orphan counting when a directory is replaced is not followed. The moved id itself, when looked up by id, is the exception of `GetSlice.PendingMoveView`.
- MoveProtocol.World.Start: the same.
- MoveProtocol.World.Finish: the same.
- NameSearch.SearchAnswers: asks that every name is given once to a new entry and that entries are sorted, as all commits of the repository leave them; behind the last entry of a directory with a pending move the place is given as the unadjusted count, as in the code.
- Handles.Handle.Fix: handles on deleted directories keep a pair, as in the code; that pair may be another directory's by then; the rule for the root pair during superblock expansion is not modelled.
- Allocator.Lookahead.Scan: a traversal that succeeds is taken to report all blocks in use; `Extend.ScanOfTip` has the exception.
- Allocator.Lookahead.Alloc: the same.
- File.File.Write: inline files, their outlining and truncation; the file is a skip list from the start.
- BlockCache.Read: the caller's buffer is returned as a sequence; off + hint is taken not to wrap at 2^32.
- BlockCache.Flush: without validation the read cache is left alone, as in the code, so its coherence is promised only with validation.
- BlockCache.Prog: the prefix is promised for programs in order; the source asserts less and the cache would then show filler bytes.
- Volume.Volume.Alloc: the window of `Allocator` is a finite list of candidates here; a call that runs out of it ends in NoSpace without a checkpoint.
- Volume.Volume.Prog: that the file layer programs each block upwards, which `Volume.ProgThroughCache` asks for, is not carried through `File`.
- Fetch.ScanBlock: an fcrc seen in an earlier commit of the block stays remembered, as in the code; custom match callbacks are in `NameSearch` only.
- Device errors other than a failed read, erase or program; endianness conversion; heap, pointers and logging.
- LFS_FROM_USERATTRS, custom attributes, inline struct masks and superblock updates.
- lfs_dir_splittingcompact's choice of the split point; `TailList` and `Handles` hold for every choice.
- lfs_fs_parent and lfs_fs_pred as searches over blocks; the root case of lfs_fs_pred.
- lfs_bd_crc; the commit reads its bytes back directly.
- Mount's version and limit checks, grow, shrink, statistics, wear levelling.
