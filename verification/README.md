# Verified models of the ocfs2 tools

This project models the parts of the ocfs2 user-space tools whose correctness is hardest
to see by reading: the protocol by which processes share a heartbeat region, the block
checksum and its error correction, the region bitmaps and the chain allocator, journal
replay, the resolution of clusters claimed twice, and the accounting passes of
fsck.ocfs2. `dafny verify dfyconfig.toml` checks all of it with Dafny 4.11.

| file | what it models |
|---|---|
| `Heartbeat.dfy`, `HeartbeatJoins.dfy`, `HeartbeatProgress.dfy`, `HeartbeatFailures.dfy` | joining and leaving a heartbeat region, as interleaved system calls, and what that comes to over a run (`libo2cb/o2cb_abi.c`) |
| `Words.dfy`, `Crc32.dfy`, `Weight.dfy`, `HighestBit.dfy`, `Hamming.dfy`, `Polynomials.dfy`, `BlockCheck.dfy` | CRC-32 (section 8 of RFC 1952) as code and as the remainder of a division of polynomials, Hamming code, check and repair of a block (`libocfs2/blockcheck.c`) |
| `Bitops.dfy` | bit set, clear and search in a buffer (`libocfs2/bitops.c`) |
| `SetAlgebra.dfy`, `Regions.dfy`, `RegionLists.dfy`, `RegionBitmap.dfy` | bitmaps made of regions (`libocfs2/bitmap.c`) |
| `ChainAlloc.dfy` | allocation groups and their three layers of counters (`libocfs2/chainalloc.c`) |
| `Journal.dfy`, `JournalRevokes.dfy`, `JournalRecovery.dfy` | the first walk over a journal, its records of revokes, and the recovery walk (`fsck.ocfs2/journal.c`) |
| `JournalJobs.dfy`, `JournalSlots.dfy`, `JournalLogs.dfy`, `JournalExamples.dfy` | lists of writes of which some are made, the replay of all slots, what a log means, and seven logs (`fsck.ocfs2/journal.c`) |
| `DupClusters.dfy`, `DupRuns.dfy`, `DupLeaks.dfy`, `DupPass.dfy` | deleting and cloning inodes, the clones and deletions of a whole run, the clusters it loses, and passes 1b and 1d (`fsck.ocfs2/pass1b.c`) |
| `ClusterReconcile.dfy` | the cluster bitmap at the end of pass 1 (`fsck.ocfs2/pass1.c`) |
| `LocalAlloc.dfy` | local alloc windows (`fsck.ocfs2/slot_recovery.c`, `fsck.ocfs2/pass1.c`) |
| `DirParents.dfy` | pass 3 (`fsck.ocfs2/pass3.c`) |
| `LinkCounts.dfy` | the link count index and pass 4 (`fsck.ocfs2/icount.c`, `fsck.ocfs2/pass4.c`) |
| `Oracle.dfy`, `Basics.dfy` | answers to prompts and outcomes of steps on disk; shared notions |

Answers to prompts and the outcome of input and output are arbitrary. Where a result
needs all of them to be favourable, a constant `smooth` says so and the methods promise
the result under `smooth`; without it they promise what holds for every outcome. In pass
1d the answers are given and `steady` speaks of input and output only. Blocks
on disk are a map from block number to contents. A byte is the sequence of its bits, and
a 32-bit word a natural number with its own exclusive or.

## Main results

- Heartbeat: in every interleaving of any number of processes, with failing calls, set
  destruction, retry and process death, one process at most is in the critical section,
  a reference implies the region, and the region goes only at a count of zero. Without
  failures every join takes exactly one reference and every leave drops one, so that the
  count is the joins less the leaves, the last leaver destroys region and set, and nobody
  waits for ever for somebody who waits. With failures and deaths the count is what was
  taken less what was dropped and what the dead owned, each operation is settled by exactly
  one step, and a region is left behind by exactly the steps named.
- Block check: for every block of at most 4096 bytes, any single flipped bit outside the
  check field is repaired exactly; an undamaged block is left alone. The checksum is the
  remainder of the block by the polynomial of RFC 1952, proved of the word-at-a-time code.
- Bitmaps: merging regions at any pair of sub-byte offsets preserves the set; range
  allocation succeeds exactly when some region has a long enough clear run and freeing
  the range restores the bitmap; all counters stay exact through every operation, and
  groups are dealt out to the chains in turn.
- Journal: told from the blocks of a log alone, the replay plans exactly the blocks of
  committed transactions, in order and as they were before they were logged, but for those
  that a revoke block of the same transaction or a later one names, committed or not; the recovery
  walk visits exactly the headers of committed transactions if and only if it neither goes
  astray after a tag run that ends on the last log block nor hangs over an earlier revoke;
  whatever reads and writes fail, the writes made are some of those planned, in order, and
  a superblock is cleared only after all that was seen of its slot was written; replaying
  again then gives the undisturbed disk if and only if no block is overtaken, and always
  does after a crash.
- Pass 1d: unless a truncate or a swap stops half way, no cluster that some inode claims
  is ever freed; for every list of answers, a run in which nothing fails on disk can come
  to the failing assertion in `can_free()` if and only if owners, order, sizes and answers
  have a hazard; without one claimed clusters stay set to the end, and when all owners are
  cloned no two inodes share a cluster; all set bits stay claimed if and only if no empty
  inode is the last that is handled of those with some cluster.
- Pass 3: on every parent map the walks terminate, and the pass connects every directory
  if and only if no circle of parents is left alone, a condition on parents and order.
- Passes 1 and 4: the cluster bitmap and the link counts end up as they should.

## What the code does that one might not expect

- A heartbeat region stays without a reference when its creator cannot take the first one,
  when it cannot be removed, and after some deaths, also one between a leaver's counting of
  the references and the drop of its own (`TidyIff` says exactly when).
- `swap_clone()` writes two inodes. If the second write fails, deleting the temporary
  inode frees clusters the original still claims (`HalfSwapIff` says exactly when).
- `fix_dups_func()` clones or deletes an owner again that was handled before, and the
  assertion in `can_free()` can fail in a run without any error: `CrashIff` says for which
  owners, order, sizes and answers, and `ExampleCrashes` has six inodes for which it does.
- The first walk records the revokes of every revoke block that it accepts, also behind the
  last commit block, so a block that was committed is skipped, without error, for a
  transaction that was not (`SkippedIff`, `WrittenIff`, `RevokedExample`). Of the entries
  of a revoke block only the first half is read, as the count is divided by the size of a
  pointer (`Named`).
- `revoke_this_block()` does not move on from a record that is older than the transaction
  asked for, so recovery hangs over a block that was revoked and logged again later
  (`SkippedIff` says exactly when, `SpinExample`).
- When the first walk fails to read a header, it takes the log to end there; recovery ends
  there too, without error, and s_start is cleared, so the commits behind it are lost
  (`LosesIff` says exactly when there are any, `UnreadExample`).
- A truncate passes over an inode of size zero, so the clusters of one that is cloned or
  deleted stay set and belong to nobody (`LostIff` says exactly which, `LeakExample`).
- The comment at the head of `fsck.ocfs2/journal.c` has it that only journals without
  problems are replayed; the code replays one whose first walk failed as far as it came
  (`FailedButReplayed`, `FailedExample`).
- A slot whose replay failed keeps s_start and is replayed again, after later slots were
  completed; an older copy of a block can win then (`ReplayAgainIff`, `OlderCopyExample`).
- `connect_directory()` does not put its number on the directory it starts from, so a walk
  that starts on a circle of parents takes it for connected; whether a circle is broken
  depends on the order of the directories (`LeftAlone`, `RootedIff`, `TwoLeftAlone`).
- `replay_blocks()` returns a position that is not wrapped, so recovery goes astray after a
  tag run that ends on the last log block (`RunEnd`, `WalkRecover`, `AstrayExample`). When
  the journal has a block behind the log that does not pass for a header, recovery reports
  no error.
- `ocfs2_block_check_validate()` flips a bit of the block with its check field zeroed. If
  that bit lies in the field, the field is written over it, and the block is accepted with
  a wrong checksum (`AcceptedRightIff` says exactly when, `FieldFixAccepted` for which).
- `ocfs2_block_check_validate()` writes the reserved half word of the check field back as
  zero (`FieldOverwritten`).
- `ocfs2_chain_add_group()` subtracts counts it never added when the write of the group
  descriptor fails (`AddGroup`: the counts stay exact if and only if that is not what
  happened).
- `ocfs2_bitmap_find_next_clear_holes()` misses a clear bit behind the last region
  (`FindNextClearHoles` and `SolidMissed` give the exact condition).
- Local alloc replay frees nothing when `i_used` equals `i_total`, whatever the bitmap
  says (`ClearLocalAlloc`).

## Model

| member | source | states |
|---|---|---|
| `Heartbeat.InitInv` | libo2cb/o2cb_abi.c:920-935 | with no set, no region and nobody joined the invariant holds |
| `Heartbeat.MutexInvNext` | libo2cb/o2cb_abi.c:965-1034 | every system call of every process keeps: whoever is inside, or failed to release the mutex, holds that of the live set, and the mutex is 0 when nobody is |
| `Heartbeat.RefsInvNext` | libo2cb/o2cb_abi.c:1021-1101 | every system call keeps: the reference count is the number of references held, and the undo adjustments give back exactly the undoable ones |
| `Heartbeat.RegionInvNext` | libo2cb/o2cb_abi.c:746-892 | every system call keeps, creation and its undoing included: a positive count implies the region, and what each place in join and leave relies on is true |
| `Heartbeat.InvNext` | libo2cb/o2cb_abi.c:746-1264 | the whole invariant is inductive over all steps of all processes |
| `Heartbeat.MutualExclusion` | libo2cb/o2cb_abi.c:965-1019 | in every state of every run at most one process is in the critical section, and the set it locked is alive |
| `Heartbeat.ReferenceKeepsRegion` | libo2cb/o2cb_abi.c:1021-1069 | in every run a positive count implies the region exists, and any held reference implies a positive count |
| `Heartbeat.RemovedOnlyAtZero` | libo2cb/o2cb_abi.c:1182-1235 | in every run the region is removed, by the last leaver or by a creation that failed half way, only at count zero, and the set is destroyed only after that |
| `Heartbeat.DropNeverBlocks` | libo2cb/o2cb_abi.c:1056-1069 | the drop of a reference, which waits for a positive count, never waits |
| `Heartbeat.LastLeaverCleansUp` | libo2cb/o2cb_abi.c:1182-1264 | in runs without failures or deaths, whenever nobody is inside, the region exists if and only if the count is positive |
| `Heartbeat.TidyIff` | libo2cb/o2cb_abi.c:746-1264 | a step of any kind, failures and deaths included, takes region and count out of agreement if and only if the first reference cannot be taken, the region cannot be removed, or a process dies with the last reference, half way, or while another that leaves has counted its references |
| `HeartbeatFailures.RegionIffHeld` | libo2cb/o2cb_abi.c:1182-1264 | in every run without such a step, whatever else fails, whenever nobody is inside the region exists if and only if the count is positive |
| `HeartbeatFailures.EventsOf` | libo2cb/o2cb_abi.c:746-1264 | every run has its list of steps |
| `HeartbeatFailures.CountIsTaken` | libo2cb/o2cb_abi.c:1021-1069 | in every run the count is the references taken less those dropped and those that the dead had taken, not persistently, and not dropped, counted from the steps |
| `HeartbeatFailures.SettledOnce` | libo2cb/o2cb_abi.c:1182-1264 | an operation that returns was settled by exactly one step: its reference was taken or dropped, or one of the calls before failed |
| `HeartbeatFailures.HeldIffStuck` | libo2cb/o2cb_abi.c:1007-1019 | a process is left with the mutex if and only if releasing it failed, and until it dies nobody else gets in |
| `HeartbeatJoins.PathOf` | libo2cb/o2cb_abi.c:746-1264 | every run without failures has its list of steps, from which the following counts are taken |
| `HeartbeatJoins.OneReference` | libo2cb/o2cb_abi.c:1237-1264 | from its start to its return a join takes exactly one reference, given back on death unless it is persistent, and a leave drops exactly one |
| `HeartbeatJoins.CountIsNet` | libo2cb/o2cb_abi.c:1021-1069 | whenever nobody is under way the reference count is the number of joins made less that of leaves made |
| `HeartbeatJoins.SetIffHeld` | libo2cb/o2cb_abi.c:1182-1235 | whenever nobody is under way the semaphore set exists if and only if references are held |
| `HeartbeatProgress.MutexNotLost` | libo2cb/o2cb_abi.c:965-1019 | in every run, with failures and deaths, a mutex that is taken is taken by somebody inside the critical section |
| `HeartbeatProgress.NoDeadlock` | libo2cb/o2cb_abi.c:965-1019 | in a run without failures, as long as somebody is under way somebody who is can take a step |
| `HeartbeatProgress.QuietPath` | libo2cb/o2cb_abi.c:1182-1264 | in a run without failures, whenever nobody is under way the mutex is free, and set and region are there if and only if references are held |
| `HeartbeatProgress.JoinAlone` | libo2cb/o2cb_abi.c:1237-1264 | when nobody is under way, a join that is left alone completes, with one reference more and the region there |
| `HeartbeatProgress.LeaveAlone` | libo2cb/o2cb_abi.c:1182-1235 | a leave that is left alone completes, and the last removes region and set |
| `Bitops.SetBit` | libocfs2/bitops.c:45-55 | sets exactly bit n in place and returns its old value |
| `Bitops.ClearBit` | libocfs2/bitops.c:57-67 | clears exactly bit n in place and returns its old value |
| `Bitops.FindNextBitSet` | libocfs2/bitops.c:89-125 | the least set bit from the offset up and below size; otherwise at least size, and size itself when the padding is zero |
| `Bitops.FindNextBitClear` | libocfs2/bitops.c:127-162 | the same for clear bits |
| `Crc32.DoCrcIsSteps` | libocfs2/blockcheck.c:252-298 | one table look-up is eight steps of the shift register |
| `Crc32.FoldAsWord` | libocfs2/blockcheck.c:252-298 | feeding a word at once is feeding its four bytes |
| `Crc32.Crc32Le` | libocfs2/blockcheck.c:252-298 | for every alignment and length the word-at-a-time loop computes the bit-at-a-time checksum |
| `Crc32.FoldInjective` | libocfs2/blockcheck.c:252-298 | different running values stay different through any data |
| `Crc32.BurstDetected` | libocfs2/blockcheck.c:252-298 | buffers that differ within four adjacent bytes, in particular in one, have different checksums |
| `Polynomials.RemainderUnique` | libocfs2/blockcheck.c:252-298 | division of polynomials over the field of two elements leaves one remainder only |
| `Polynomials.GeneratorBits` | libocfs2/blockcheck.c:236-250 | the constant of the table is the polynomial of RFC 1952, given by its powers of x, without the leading term |
| `Polynomials.StepsDivide` | libocfs2/blockcheck.c:252-298 | steps of the shift register are steps of a long division |
| `Polynomials.ChecksumIsRemainder` | libocfs2/blockcheck.c:252-298 | the checksum of four bytes or more is the remainder of the message, its first 32 bits inverted and shifted up 32 places, by that polynomial |
| `Weight.WeightIsPopcount` | libocfs2/blockcheck.c:41-48 | the shift-and-add expression is the number of set bits, for every 32-bit word |
| `Hamming.CodeBitBounds` | libocfs2/blockcheck.c:50-98 | no data bit is placed at a power of two |
| `Hamming.CodeBitIncreasing` | libocfs2/blockcheck.c:50-98 | positions grow strictly with the data bit |
| `Hamming.DataBitAt` | libocfs2/blockcheck.c:50-98 | every position that is not a power of two belongs to a data bit, so the map is a bijection |
| `Hamming.CalcCodeBit` | libocfs2/blockcheck.c:68-98 | gives the position from any valid cached parity count, and a valid one back |
| `Hamming.HammingEncode` | libocfs2/blockcheck.c:111-158 | the loop over set bits with the cache computes the exclusive or of all positions |
| `Hamming.HunksCompose` | libocfs2/blockcheck.c:100-158 | encoding two byte-aligned hunks one after the other is encoding the whole |
| `Hamming.EncodeFlip` | libocfs2/blockcheck.c:111-158 | hunks that differ in one bit have parity words that differ in exactly its position |
| `Hamming.EncodeFits` | libocfs2/blockcheck.c:111-163 | the parity word stays below the power of two above the last position |
| `Hamming.HammingFix` | libocfs2/blockcheck.c:172-227 | flips exactly the data bit at the given position, and nothing for a parity position or one outside the hunk |
| `Hamming.CalcParityBitsOrig` | libocfs2/blockcheck.c:422-441 | the original count of parity bits is the one the positions use |
| `Hamming.HammingEncodeOrig` | libocfs2/blockcheck.c:536-588 | the original encoder at offset 0 computes the same word |
| `HighestBit.FindHighestBitSet` | libocfs2/blockcheck.c:474-491 | smearing, multiplying and looking up the table gives the number of the highest set bit of every non-zero 32-bit word |
| `Hamming.CalcCodeBitCheat` | libocfs2/blockcheck.c:493-522 | the short cut gives the same position |
| `Hamming.HammingEncodeCheat` | libocfs2/blockcheck.c:701-748 | the encoder with the short cut computes the same word |
| `BlockCheck.Compute` | libocfs2/blockcheck.c:314-328 | in place, the field becomes checksum and parity of the block with a zero field, and nothing else changes |
| `BlockCheck.Validate` | libocfs2/blockcheck.c:338-371 | in place, follows the definition by zeroed block, comparison, repair and second comparison |
| `BlockCheck.ParityFits` | libocfs2/blockcheck.c:314-328 | the parity word fits 16 bits and every position 32 for blocks up to 4096 bytes |
| `BlockCheck.FieldRoundTrip` | libocfs2/blockcheck.c:314-371 | reading a little-endian field and writing it back is the identity |
| `BlockCheck.ComputedRight` | libocfs2/blockcheck.c:314-328 | computing stores that remainder, of the block with zeros for the field, behind it the parity word and two zero bytes, and changes nothing else |
| `BlockCheck.RightAccepted` | libocfs2/blockcheck.c:338-371 | a block that stores that remainder is accepted |
| `BlockCheck.ZerosRefused` | libocfs2/blockcheck.c:338-371 | a block of zero bytes is refused |
| `BlockCheck.AcceptedRightIff` | libocfs2/blockcheck.c:338-371 | an accepted block is left with the right checksum if and only if it had it or the bit flipped lies outside the check field |
| `BlockCheck.FieldFixAccepted` | libocfs2/blockcheck.c:338-371 | for every block and every bit of the field, a check field with which it is accepted unchanged and with a wrong checksum |
| `BlockCheck.NoErrorAccepted` | libocfs2/blockcheck.c:314-371 | validating a computed block succeeds and changes nothing |
| `BlockCheck.DataFlipRepaired` | libocfs2/blockcheck.c:314-371 | after any single bit flip outside the field validation succeeds with the original block restored |
| `BlockCheck.FieldOverwritten` | libocfs2/blockcheck.c:338-371 | when the field is damaged but checksum or parity is intact, validation succeeds if and only if the checksum is, and changes only the reserved bytes |
| `Regions.ShiftIn` | libocfs2/bitmap.c:366-391 | the byte loop places every bit of the next region behind the bits of the previous one, for every offset, and zeroes the rest |
| `Regions.Join` | libocfs2/bitmap.c:333-392 | the same including the copy at a byte boundary |
| `Regions.Absorb` | libocfs2/bitmap.c:333-399 | the merged region holds exactly the members of both, with zero padding and an exact count |
| `Regions.ClearCount` | libocfs2/bitmap.c:485-499 | total minus br_set_bits is the number of clear bits |
| `Regions.FillGood` | libocfs2/bitmap.c:699-702 | setting or clearing a range bit by bit adds or removes exactly the range and keeps the count exact |
| `Regions.CountedRuns` | libocfs2/bitmap.c:662-663 | the early exit on the count misses no run |
| `Regions.SearchRegion` | libocfs2/bitmap.c:651-697 | a clear run of at least min and at most len bits, len long or the longest of the region, or none of min bits exists |
| `RegionLists.JoinGood` | libocfs2/bitmap.c:333-399 | merging neighbours keeps order, zero padding, counts, the set and the coverage |
| `RegionLists.InsertGood` | libocfs2/bitmap.c:449-483 | a region put between its neighbours keeps all that, and adds its members |
| `RegionLists.FlipRep` | libocfs2/bitmap.c:485-555 | changing one bit changes the set by exactly that number |
| `RegionLists.FillRep` | libocfs2/bitmap.c:699-752 | changing a range of one region changes the set by exactly the range |
| `RegionLists.RangeRestored` | libocfs2/bitmap.c:651-752 | clearing an allocated range gives back the very same regions |
| `RegionLists.SucceedsIff` | libocfs2/bitmap.c:651-735 | allocation fails if and only if no region has min clear bits in a row |
| `RegionLists.SolidMissed` | libocfs2/bitmap.c:812-858 | where the search for a clear bit fails, there is one nevertheless if and only if the last region ends before the bitmap does |
| `RegionBitmap.Bitmap.Lookup` | libocfs2/bitmap.c:413-447 | whatever the shape of the tree, a region that meets the range, or exactly the place between regions that do not |
| `RegionBitmap.Bitmap.Merge` | libocfs2/bitmap.c:333-399 | set, coverage and invariant are unchanged whether or not the merge happens |
| `RegionBitmap.Bitmap.Insert` | libocfs2/bitmap.c:449-483 | succeeds if and only if the start is in range and nothing overlaps, and then adds exactly the members and the coverage of the region |
| `RegionBitmap.Bitmap.Change` | libocfs2/bitmap.c:505-555 | fails exactly without memory for the bit; otherwise the old value and the set with that number added or removed |
| `RegionBitmap.Bitmap.TestGeneric` | libocfs2/bitmap.c:557-569 | membership, where there is memory |
| `RegionBitmap.Bitmap.SetHoles` | libocfs2/bitmap.c:758-776 | adds the number to the set and returns whether it was there |
| `RegionBitmap.Bitmap.ClearHoles` | libocfs2/bitmap.c:778-794 | removes the number from the set |
| `RegionBitmap.Bitmap.TestHoles` | libocfs2/bitmap.c:796-803 | membership for every number |
| `RegionBitmap.Bitmap.FindNext` | libocfs2/bitmap.c:571-637 | the least set, or least covered clear, number from start up over all regions, or none if there is none |
| `RegionBitmap.Bitmap.FindNextClearHoles` | libocfs2/bitmap.c:812-858 | the least number from start up not in the set; fails if and only if the regions are solid from start to their end |
| `RegionBitmap.Bitmap.AllocRange` | libocfs2/bitmap.c:140-155 | error cases, the choice of range in the first region that has one, and exactly that range added to the set |
| `RegionBitmap.Bitmap.ClearRange` | libocfs2/bitmap.c:737-752 | error cases, and exactly the range removed from the set |
| `RegionBitmap.Bitmap.AllocThenClear` | libocfs2/bitmap.c:651-752 | clearing a range just allocated succeeds, and restores the regions, if and only if the range does not reach past the end of the bitmap |
| `ChainAlloc.NotifyKeeps` | libocfs2/chainalloc.c:221-246 | moving one bit's worth through group, chain and inode keeps chain sums and i_used exact |
| `ChainAlloc.AddKeeps` | libocfs2/chainalloc.c:548-562 | adding a group's counts to its chain and the inode keeps the sums exact |
| `ChainAlloc.RollBackRestores` | libocfs2/chainalloc.c:579-598 | undoing a group restores counts, chain head, size and cl_next_free_rec, whichever way the chain was picked |
| `ChainAlloc.UsedCounts` | libocfs2/chainalloc.c:221-246 | when the group counts are exact, i_used is the number of bits set |
| `ChainAlloc.DealtGrows` | libocfs2/chainalloc.c:527-534 | a group added to groups dealt out to the chains in turn goes to the chain whose turn it is |
| `ChainAlloc.DealtEven` | libocfs2/chainalloc.c:527-534 | then chains differ by one group at most, those in use come first, and none has a second before all have one |
| `ChainAlloc.Allocator.Notify` | libocfs2/chainalloc.c:221-246 | group, chain and inode counters change together, and stay exact if they were |
| `ChainAlloc.Allocator.FlipAt` | libocfs2/bitmap.c:485-538 | a bit change with its notification keeps counters exact that were, and changes the set by that bit |
| `ChainAlloc.Allocator.ForceVal` | libocfs2/chainalloc.c:449-467 | success condition, old value, new set, i_used, and counters exact if they were |
| `ChainAlloc.Allocator.Alloc` | libocfs2/chainalloc.c:392-427 | takes the least clear bit, never reports an internal failure, fails only without one in range |
| `ChainAlloc.Allocator.Free` | libocfs2/chainalloc.c:429-446 | succeeds if and only if the bit was set, and then clears it |
| `ChainAlloc.Allocator.AllocRange` | libocfs2/chainalloc.c:342-354 | as for the bitmap, with all counters exact |
| `ChainAlloc.Allocator.FreeRange` | libocfs2/chainalloc.c:356-365 | as for the bitmap, with all counters exact |
| `ChainAlloc.Allocator.ProcessGroup` | libocfs2/chainalloc.c:83-147 | a new group becomes a region with its first bit set, unless it overlaps or cannot be read |
| `ChainAlloc.Allocator.AddGroup` | libocfs2/chainalloc.c:501-605 | counters exact afterwards if and only if it was not the descriptor write that failed; other failures restore inode, groups, bitmap and clusters; while a chain record is unused the group takes the first one, and groups dealt out in turn stay so |
| `Journal.SeqOrder` | fsck.ocfs2/journal.c:73-82 | up to half the number range ahead, comparison by signed difference is the natural order |
| `Journal.JWrap` | fsck.ocfs2/journal.c:187-198 | reduces a block number into the circle between s_first and s_maxlen |
| `Journal.WrapAdd` | fsck.ocfs2/journal.c:187-198 | wrapping on the way or at the end gives the same block |
| `Journal.CountTagsLoop` | fsck.ocfs2/journal.c:200-229 | the number of tags up to the last one, or an error if one names a block out of range |
| `Journal.RecordHeader` | fsck.ocfs2/journal.c:157-185 | the records after a revoke block, of whose entries the first half is read, or none if the count is out of range |
| `Journal.WalkScan` | fsck.ocfs2/journal.c:348-452 | terminates on every log with s_first below s_maxlen, since each turn marks a new block, and returns headers, end, marks and the records of revokes, also when a read fails |
| `Journal.EndIsAhead` | fsck.ocfs2/journal.c:348-452 | the first walk ends as many sequence numbers ahead as it saw commit blocks |
| `Journal.CommittedMeans` | fsck.ocfs2/journal.c:348-452 | a header counts as committed if and only if a commit block follows it in the walk |
| `JournalRevokes.ScanNumbered` | fsck.ocfs2/journal.c:348-452 | the headers of the first walk carry the number it began with and the commit blocks before them, modulo 2 to the 32, and are too few to come round half the circle |
| `JournalRevokes.RecordIsLast` | fsck.ocfs2/journal.c:84-117 | the record of a block is the number of the last revoke block that names it, although numbers wrap around |
| `JournalRevokes.SkippedIff` | fsck.ocfs2/journal.c:119-144 | a block is taken for revoked if and only if a revoke block of the same transaction or a later one names it, committed or not; the search does not end if and only if only earlier ones do |
| `JournalRevokes.HeaderAgain` | fsck.ocfs2/journal.c:425-429 | recording a revoke block once more in the recovery walk changes no record |
| `JournalRevokes.CutShort` | fsck.ocfs2/journal.c:375-380 | a first walk that fails to read a header has seen exactly the headers before it |
| `JournalRevokes.CommittedPrefix` | fsck.ocfs2/journal.c:348-452 | of those fewer are committed if and only if a commit block comes later |
| `JournalRecovery.RunEnd` | fsck.ocfs2/journal.c:285-346 | the unwrapped end of a tag run is where the first walk goes on if and only if the run does not end on the last log block |
| `JournalRecovery.Replayer.ReplayBlocks` | fsck.ocfs2/journal.c:285-346 | writes tagged blocks that are not revoked with escapes undone, each unless its log block was marked or reading or writing it failed, and fails if and only if one was not written; hangs if and only if a tag has an earlier record |
| `JournalRecovery.LoopGuard` | fsck.ocfs2/journal.c:372-373 | the recovery stops exactly when no commit is left |
| `JournalRecovery.ReachedWhole` | fsck.ocfs2/journal.c:285-452 | the recovery reaches all committed headers if and only if it neither goes astray nor hangs at one of them |
| `JournalRecovery.GoesAstray` | fsck.ocfs2/journal.c:285-452 | where it does, committed headers are left |
| `JournalRecovery.Replayer.WalkRecover` | fsck.ocfs2/journal.c:348-452 | for all outcomes of reads and writes: it deals with the committed headers in order, up to where it goes astray or hangs unless a header cannot be read, and makes some of their writes, all of them if it reports no error; it visits exactly the committed headers if and only if it does neither |
| `JournalJobs.RunPart` | fsck.ocfs2/journal.c:663-698 | the disk and superblocks after any of the planned writes, in order |
| `JournalJobs.AgainIff` | fsck.ocfs2/journal.c:663-698 | doing again the jobs that were not completed gives what all would have given if and only if no block is overtaken by an older copy |
| `JournalSlots.WrittenIff` | fsck.ocfs2/journal.c:285-452 | a block that a committed descriptor of a slot names is written back for it if and only if no revoke block of its transaction or a later one names it |
| `JournalSlots.LosesIff` | fsck.ocfs2/journal.c:375-380 | a first walk that fails to read a header misses committed headers if and only if there is a commit block from there on |
| `JournalLogs.ScanMeans` | fsck.ocfs2/journal.c:375-440 | the first walk accepts headers with the magic number and the expected sequence number only, each where the one before says; where it ends without failing the block lacks one of the two, and it fails only at the end, at a block marked or unreadable, or at a bad tag |
| `JournalLogs.LogReplayed` | fsck.ocfs2/journal.c:285-452 | the writes planned for a log, told from its blocks alone, are those of its sealed transactions, in order, as the blocks were before they were escaped, but for those forgotten in the same transaction or a later one |
| `JournalLogs.SequenceMovesOn` | fsck.ocfs2/journal.c:678-683 | the new s_sequence is one more than the commits seen and newer than every header seen |
| `JournalSlots.ReplayAgainIff` | fsck.ocfs2/journal.c:601-728 | after a replay with failures, an undisturbed one gives what it would have given at first if and only if the last copy of every block among the slots replayed again is the last of all |
| `JournalSlots.CrashSafe` | fsck.ocfs2/journal.c:601-728 | after any number of the writes of a replay of all slots, a replay of what is then on disk ends in the same disk and superblocks |
| `JournalSlots.ScanSlots` | fsck.ocfs2/journal.c:637-661 | the first walks of all slots that can be prepared mark each journal, and record its revokes, as if it were alone |
| `JournalSlots.ReplayJournals` | fsck.ocfs2/journal.c:601-728 | for all outcomes of reads and writes: some of the planned writes are made, in order; s_start is cleared only for slots all of whose blocks that were seen were written; when nothing fails on disk it hangs exactly at the first slot with an earlier revoke, clears exactly the slots up to there whose log does not overlap itself, and without either is the undisturbed replay |
| `JournalExamples.FailedButReplayed` | fsck.ocfs2/journal.c:641-676 | a log that fills its journal fails the first walk and is replayed all the same |
| `JournalExamples.FailedExample` | fsck.ocfs2/journal.c:641-676 | a journal of four blocks for which that is so |
| `JournalExamples.OlderCopyExample` | fsck.ocfs2/journal.c:663-698 | two slots that logged the same block: when the write of the first fails and the second is completed, replaying again does not give the undisturbed disk |
| `JournalExamples.AstrayExample` | fsck.ocfs2/journal.c:285-452 | a log whose first walk finds descriptor and commit block, of which recovery reaches only the descriptor |
| `JournalExamples.StaleExample` | fsck.ocfs2/journal.c:397-398 | a transaction left from an earlier lap behind a committed one is not replayed |
| `JournalExamples.RevokedExample` | fsck.ocfs2/journal.c:425-429 | a log whose one committed block is named by a revoke block behind the commit: nothing is written, nothing fails and the log is cleared |
| `JournalExamples.SpinExample` | fsck.ocfs2/journal.c:133-141 | a sound log in which one transaction revokes a block and the next logs it: recovery hangs |
| `JournalExamples.UnreadExample` | fsck.ocfs2/journal.c:375-380 | a log whose commit block the first walk cannot read: it is cleared without a write, and no replay brings the block back |
| `DupPass.Scanner.DupInsert` | fsck.ocfs2/pass1b.c:244-318 | an owner is listed once per cluster, at the end |
| `DupPass.Scan` | fsck.ocfs2/pass1b.c:362-400 | the owner lists hold exactly the claimants of each shared cluster, and all else holds that pass 1d begins with |
| `DupPass.Pass1d.CountUnhandled` | fsck.ocfs2/pass1b.c:971-1000 | the number of owners still to be handled |
| `DupPass.Pass1d.CanFree` | fsck.ocfs2/pass1b.c:1173-1192 | yes, no or failed assertion, by the number of owners left |
| `DupPass.Pass1d.FreeClusters` | fsck.ocfs2/pass1b.c:1194-1237 | clears exactly the freeable clusters up to where it stops |
| `DupPass.Pass1d.DeleteOneInode` | fsck.ocfs2/pass1b.c:1239-1263 | truncates and releases, with every way of stopping |
| `DupPass.Pass1d.NewClone` | fsck.ocfs2/pass1b.c:1030-1083 | an unused inode number and free clusters for the size of the original |
| `DupPass.Pass1d.CloneOneInode` | fsck.ocfs2/pass1b.c:1265-1301 | allocate, copy, swap and delete, with every way of failing; swaps when nothing fails |
| `DupClusters.FreeableUnshared` | fsck.ocfs2/pass1b.c:1173-1192 | a cluster that may be freed has no second claimant |
| `DupClusters.DeleteKeepsInv` | fsck.ocfs2/pass1b.c:1239-1263 | deleting an owner keeps every claimed cluster set and sharing confined to unhandled owners |
| `DupClusters.DeleteStoppedIff` | fsck.ocfs2/pass1b.c:1194-1263 | a truncate that stops half way is harmless if and only if it had freed nothing |
| `DupClusters.SwapSafe` | fsck.ocfs2/pass1b.c:1124-1171 | every claimed cluster is set also between the two writes of a swap |
| `DupClusters.CloneKeepsInv` | fsck.ocfs2/pass1b.c:1265-1301 | a clone keeps the invariant, and after the swap the original shares nothing |
| `DupClusters.HalfSwapIff` | fsck.ocfs2/pass1b.c:1124-1171 | a failed second write is harmless if and only if none of the original's clusters could be freed |
| `DupRuns.RunAlong` | fsck.ocfs2/pass1b.c:1303-1384 | after any clones and deletions along a run, inodes not yet handled are as they were, and those handled have a shared cluster only if it was given back before |
| `DupRuns.CrashNeedsHazard` | fsck.ocfs2/pass1b.c:1173-1192 | the assertion fails only for an inode cloned before, and not deleted, after all owners of some shared cluster had been cloned or deleted, the last of them not empty |
| `DupRuns.HazardCrashes` | fsck.ocfs2/pass1b.c:1173-1192 | where the schedule has such an inode, new clusters can be such that the assertion fails when it is cloned or deleted next |
| `DupRuns.CrashIff` | fsck.ocfs2/pass1b.c:1173-1192 | for all answers, some run without error comes to the failing assertion if and only if owners, order, sizes and answers have such a hazard |
| `DupRuns.ExampleCrashes` | fsck.ocfs2/pass1b.c:1173-1192 | six inodes and three shared clusters where the fifth clone, the second of the same inode, fails the assertion |
| `DupRuns.ScheduleSpares` | fsck.ocfs2/pass1b.c:1303-1349 | for all answers, no chain allocator is cloned or deleted and no system file deleted |
| `DupRuns.AskedIff` | fsck.ocfs2/pass1b.c:1303-1349 | of the owners of a cluster, each is deleted if and only if its answer says so and it is no system file, and cloned if and only if its answer says so or none is left, unless it is a chain allocator |
| `DupLeaks.LostIff` | fsck.ocfs2/pass1b.c:1194-1301 | after any run without error, of all set bits exactly those are claimed by nobody that an empty inode claimed, which was the last handled of their owners |
| `DupLeaks.FullStaysTight` | fsck.ocfs2/pass1b.c:1194-1301 | when no inode handled is empty every set bit stays claimed |
| `DupLeaks.LeakExample` | fsck.ocfs2/pass1b.c:1194-1301 | two inodes of which one is empty, where a cluster is lost |
| `DupPass.Pass1d.FixDups` | fsck.ocfs2/pass1b.c:1303-1349 | keeps the invariant unless a truncate or a swap stopped half way; when nothing fails on disk the owner is cloned, deleted or kept as answered, or the assertion fails, which is told from its clusters |
| `DupPass.Pass1d.Run` | fsck.ocfs2/pass1b.c:1351-1384 | claimed clusters stay set unless a truncate or a swap stopped half way; when nothing fails on disk, for all answers, it clones and deletes along the schedule until the assertion fails, which is the only thing to disturb it and needs a hazard; when all owners are cloned it ends with disjoint claims; set bits that were all claimed stay so if and only if nothing leaks |
| `ClusterReconcile.InBackup` | fsck.ocfs2/pass1.c:1179-1189 | membership in the list of backup superblock clusters |
| `ClusterReconcile.Reconciler.ForceBit` | fsck.ocfs2/pass1.c:1152-1177 | changes at most the one bit, makes it right when agreed to and covered, and keeps all counts exact that were |
| `ClusterReconcile.Reconciler.ClearTo` | fsck.ocfs2/pass1.c:1283-1299 | the bits up to the next cluster in use are looked at once each, and right afterwards |
| `ClusterReconcile.Reconciler.Run` | fsck.ocfs2/pass1.c:1264-1305 | asks once, in order, about exactly the bits that differ; when all is agreed to a bit ends set exactly when the cluster is in use, or was set and holds a backup superblock; counts that were exact are at the end, and i_used is the number of bits set |
| `LocalAlloc.Reserve` | fsck.ocfs2/pass1.c:1033-1074 | reserves exactly the clusters for clear bits of a sane window, and nothing of another |
| `LocalAlloc.Recovery.ClearLocalAlloc` | fsck.ocfs2/slot_recovery.c:89-163 | frees, as ascending maximal runs, exactly the same set unless i_used equals i_total, then empties the window; error cases |
| `LocalAlloc.GivingRun` | fsck.ocfs2/slot_recovery.c:117-150 | each run handed back is maximal and the clusters freed so far are exactly the unused ones passed |
| `DirParents.MovedRooted` | fsck.ocfs2/pass3.c:249-310 | moving a directory that hangs on nothing to a rooted lost+found roots it and unroots nothing |
| `DirParents.StuckAdrift` | fsck.ocfs2/pass3.c:335-364 | where a walk is stuck, at a directory without parent or with one it has passed, nothing was rooted |
| `DirParents.WalkMoves` | fsck.ocfs2/pass3.c:325-364 | moving the place where it is stuck roots all the walk has passed, orphan or circle |
| `DirParents.NotStuckOn` | fsck.ocfs2/pass3.c:325-349 | a walk that starts on a circle never finds its own number on a parent, so it does not get stuck |
| `DirParents.RoundAlone` | fsck.ocfs2/pass3.c:325-349 | a walk that comes round to its start has found a circle to which no directory before it in the order leads |
| `DirParents.TwoLeftAlone` | fsck.ocfs2/pass3.c:325-349 | two directories that are each other's parents are such a circle |
| `DirParents.RootedIff` | fsck.ocfs2/pass3.c:427-435 | at the end every chain of parents reaches root or system directory if and only if there is no such circle |
| `DirParents.Walker.Climb` | fsck.ocfs2/pass3.c:325-349 | the walk terminates on every parent map, since each turn marks a directory; it follows parents, over nothing marked or passed before, to something marked, its own start, or where it is stuck; fails exactly at an unknown parent |
| `DirParents.Walker.ConnectDirectory` | fsck.ocfs2/pass3.c:314-393 | at most the place where the walk is stuck changes its parent, to lost+found; exactly what was passed is marked; the '..' of the directory is right when smooth |
| `DirParents.Walker.Run` | fsck.ocfs2/pass3.c:409-439 | succeeds if and only if root, system directory and all parents are known; when smooth every '..' is the parent, and with lost+found rooted everything is rooted if and only if there is no circle of parents of which the first directory in the order that leads to it is itself part |
| `LinkCounts.TableSet` | fsck.ocfs2/icount.c:91-124 | updating bitmap and tree by the new count changes the table at that inode only and keeps them disjoint |
| `LinkCounts.Icount.Search` | fsck.ocfs2/icount.c:68-88 | the node, or the place of the next one, whatever the shape of the tree |
| `LinkCounts.Icount.Set` | fsck.ocfs2/icount.c:91-124 | the total map is updated at one inode; without memory for a node its count is lost |
| `LinkCounts.Icount.Get` | fsck.ocfs2/icount.c:126-144 | the value of the total map |
| `LinkCounts.Icount.Delta` | fsck.ocfs2/icount.c:147-176 | adds to the value, modulo 65536 |
| `LinkCounts.Icount.NextBlkno` | fsck.ocfs2/icount.c:201-228 | the least inode from start up with a count, or none if there is none |
| `LinkCounts.Sweep.Check` | fsck.ocfs2/pass4.c:48-101 | touches one inode only; when smooth both counts become the number of entries, at least one, and the count on disk follows and goes on agreeing |
| `LinkCounts.Sweep.NextAny` | fsck.ocfs2/pass4.c:276-304 | the least inode from start up with a count in either map |
| `LinkCounts.Sweep.Run` | fsck.ocfs2/pass4.c:331-336 | visits in ascending order exactly the inodes that had a count in either map; when smooth the two maps are equal at the end, and are the entries found, or one for an inode without any, and counts on disk that agreed with the one before agree with it then |

## Left out

- Device reads and writes, caching, byte swapping on big-endian hosts, memory allocation other than where named, system inode lookup, configfs and sockets: replaced by values and arbitrary outcomes.
- Printing, prompts, debugfs and deliberate corruption tools: user interface.
- Red-black balancing: trees are sorted sequences probed anywhere.
- Regions are values held by the bitmap; pointers into the tree and aliasing between them are not modelled.
- `b_set_bits` and the old value reported for clearing a hole: the code does not keep them.
- The overflow of `ocfs2_align_total()` within seven bits of INT_MAX, and the widths of the group and chain counters, which the exact counts keep in range.
- Merging as far as possible after an insert: the code gives up when the left neighbour does not merge.
- RegionBitmap.Bitmap.ClearRange: a range that meets a region only in part is excluded, since the code writes outside the buffer then.
- ChainAlloc.Allocator.FreeRange: the same for a range that meets a group only in part.
- ChainAlloc.Allocator.ProcessGroup: descriptors of new groups only, as ocfs2_chain_add_group() hands them over.
- RegionBitmap.Bitmap.SetHoles: has memory for the region of a new bit.
- RegionBitmap.Bitmap.ClearHoles: has memory too, and does not say what old value it reports.
- ChainAlloc.Allocator.Alloc: does not return the group descriptor's block.
- ChainAlloc.Allocator.AddGroup: the first bit of the group is given rather than scaled from the block number, and dirty flags are not kept.
- Reading an allocator from disk, where the counts are only as good as the disk.
- JournalSlots.ReplayJournals: covers journals that share no block, whose committed tags lie outside the journals and are terminated and whose tag runs do not end on the last log block, with log blocks that are on disk, though reading them may fail; the size check of the journal inode and clearing the dirty flag on disk are not modelled.
- JournalSlots.ScanSlots: covers journals that share no block.
- JournalSlots.CrashSafe: covers the journals of ReplayJournals, with logs that do not overlap themselves and do not make recovery hang, and first walks that can read them.
- JournalSlots.ReplayAgainIff: covers the same journals.
- JournalRecovery.Replayer.WalkRecover: a header accepted behind the log, where recovery has gone astray, is not pursued; from there the code may run in a circle.
- Running out of memory in replay_blocks() and for a record of a revoke.
- A process that failed to release the mutex of a region makes no more calls for it than to exit, since they would wait for itself.
- Heartbeat regions of the user-space stack, o2cb_get_region_ref and o2cb_put_region_ref called on their own, and leaves that do not match a join.
- Hamming.HammingEncodeOrig: offset 0 only, since the original sizes its parity by the hunk.
- Hamming.CalcParityBitsOrig: sizes from 1 to 2 to the 31 less 32; it has no answer for larger ones.
- Hamming.HammingEncodeCheat: as CalcCodeBitCheat.
- Hamming.CalcCodeBitCheat: data bits below 2 to the 30, since the doubling power wraps around above that.
- The contents of the clusters that copy_clone() copies.
- Clusters claimed through extended attributes or chain allocators in pass 1d, and pass 1c, which only finds names.
- DirParents.Walker.Run: says nothing of connection when lost+found itself hangs on nothing; creation of root and lost+found, and the changes to link counts, are not modelled.
- Orphan replay in pass 4, and the entry that reconnecting adds to lost+found.
- Truncate logs, inode allocators, passes 0 and 2, extent and attribute repair.
