# btier placement metadata, modelled in Dafny

btier is a Linux block driver. It joins several backing devices (tiers, fastest first) into one block device. It keeps every block of the virtual device on one tier and migrates blocks between tiers by how often and how recently they are used. This project models the driver's placement-metadata engine, checked by Dafny's verifier:

- the block map, in memory and on disk;
- each tier's allocation bitlist, with its free cursor and its data region;
- each tier's header (`devicemagic`): hit counters, data policy and the one-slot migration journal;
- the operations of `kernel/btier/btier_main.c` that read and update these structures.

Layout:

- `types.dfy` (`BtierTypes`): records, headers, the device record and its geometry, the driver's compile-time constants as a `Config` parameter, and u64 wrap-around as `WrapU64`.
- Value-level specifications, one module per concern:
  - `records.dfy` (`BlockRecords`): the record copies and comparison.
  - `bitlist.dfy` (`Bitlist`): first-fit allocation, marking, freeing, counting, wiping, relocation.
  - `placement.dfy` (`Placement`): the placement invariant. Every allocated entry names an ALLOCATED slot of an attached tier, and no two entries share a slot.
  - `journal.dfy` (`Journal`): the journal, recovery and crash safety of a migration.
  - `policy.dfy` (`Policy`): the promotion and demotion thresholds and the counter bookkeeping.
  - `migration.dfy` (`Migration`): `copyblock` and the movers built on it.
  - `repair.dfy` (`Repair`): the bitlist rebuild at attach time.
  - `names.dfy` (`DeviceNamePool`), `ordering.dfy` (`Ordering`) and `sizing.dfy` (`Sizing`): the smaller pieces.
- `engine.dfy` (`Engine`): the class `TierDevice`. Its fields are the driver's state: the block map `cache`, the on-disk map `diskmap`, the tiers `devs`, the walk cursor, the direct-migration slot and the error flag. Its methods update those fields in place, with the driver's loops and branches. Each method's `ensures` ties the new state to the value-level function above, and the lemmas prove what the driver promises about those functions.

The driver's quirks are modelled as written and named where they occur:

- `repair_bitlists` writes `free_offset` through the stale loop index (`Engine.TierDevice.strayFreeOffset`, `Repair.RepairedStray`).
- `migrate_data_if_needed` stops with -1 after a *successful* copy, and then frees the new slot rather than the old one (`Migration.EvacuateOne`, `Migration.EvacuateBreaksPlacement`). Because its `olddevice` is the map entry itself, `copyblock` cleans the journal of the grown tier, not of tier 0, and tier 0's journal stays pending with the move (`Migration.CopyOnEntry`, `Migration.EvacuateLeavesJournalPending`).
- `clean_blocklist_journal` marks the header CLEAN and `write_blocklist_journal` leaves the flag alone, while attach runs recovery only on a header that is not CLEAN. After one completed migration, a crash during the next migration from the same tier leaves a pending journal that attach skips (`Journal.AttachCheck`, `Journal.SecondMigrationEscapesRecovery`).
- `copyblock` zeroes the counters before it refuses a same-tier move (`Migration.CopyOutcome`).
- Hit-based demotion stops one tier short of the slowest (`Policy.SlowestTierOnlyByAge`).
- The one-pass swap of `order_devices` can leave tiers out of place (`Ordering.SwapPassCanMisorder`).

## Model

| member | source | states |
|---|---|---|
| BlockRecords.CopyBlockInfo | kernel/btier/btier_main.c:473-482 | the on-disk record built from an entry passes `same_blockinfo` against that entry |
| BlockRecords.CopyPhysicalBlockInfo | kernel/btier/btier_main.c:484-493 | the entry built from an on-disk record passes `same_blockinfo` against that record |
| BlockRecords.SameIffCopy | kernel/btier/btier_main.c:456-471 | the comparison holds exactly when the record is the copy of the entry, so `update_blocklist` skips exactly the writes that would change nothing |
| BlockRecords.CopyRoundTrip | kernel/btier/btier_main.c:473-493 | the two copies are inverse to each other in both directions |
| BlockRecords.ZeroRecordIsUnallocated | kernel/btier/btier_main.c:484-493 | an all-zero on-disk record reads back as the unallocated entry (device 0) |
| Bitlist.FirstFree | kernel/btier/btier_main.c:280-306 | the first index at or after the start whose byte is not ALLOCATED, all bytes before it being ALLOCATED; none exactly when every byte from the start is ALLOCATED |
| Bitlist.PageStart | kernel/btier/btier_main.c:277 | the scan starts at a page multiple, at or below the free cursor and less than a page before it |
| Bitlist.AllocateSpec | kernel/btier/btier_main.c:263-315 | on success: the first free byte from the cursor's page is marked, `device = device+1`, `offset = startofdata + index*BLKSIZE` within `endofdata`, `free_offset = index`, `usedoffset = offset`. A failed allocation leaves the device unchanged and `device` 0: when no byte is free the entry is kept, and when the candidate lies past `endofdata` only its offset is overwritten. A `binfo` that already has a device is left alone |
| Bitlist.MarkUsed | kernel/btier/btier_main.c:218-237 | exactly byte `offset >> BLK_SHIFT` becomes ALLOCATED; every other byte and every other field is unchanged |
| Bitlist.ClearSlot | kernel/btier/btier_main.c:239-261 | exactly the byte at `(offset - startofdata) >> BLK_SHIFT` becomes UNALLOCATED, `free_offset` becomes min(old, index), and every other byte and field (geometry included) is unchanged |
| Bitlist.CountAllocated | kernel/btier/btier_main.c:1328-1388 | the number of ALLOCATED bytes never exceeds the bitlist's length |
| Bitlist.AllocateCounts | kernel/btier/btier_main.c:263-315 | a successful allocation uses exactly one more slot; a failed one uses none |
| Bitlist.ClearCounts | kernel/btier/btier_main.c:239-261 | freeing an ALLOCATED slot gives back exactly one slot |
| Bitlist.AllocateThenClear | kernel/btier/btier_main.c:239-315 | freeing the slot an allocation just took brings the cursor to that slot and, when the slot was UNALLOCATED before, restores the bitlist |
| Bitlist.Wipe | kernel/btier/btier_main.c:1310-1326 | a wiped bitlist has every byte UNALLOCATED and counts nothing; the cursor is 0 and the geometry is kept |
| Bitlist.MigrateBitlist | kernel/btier/btier_main.c:2127-2158 | succeeds exactly when the new region ends at or past the device size and the I/O succeeds. On success the old bytes come first and the added tail is zero, the ALLOCATED count is kept and both copies of the start and size are repointed. On failure nothing changes |
| Placement.PlacedKeepsUnderMarking | kernel/btier/btier_main.c:496-515 | with the same places and geometry, a change that only marks slots or rewrites counters keeps the placement invariant |
| Placement.MoveKeepsPlaced | kernel/btier/btier_main.c:735-781 | taking a free slot on another tier, marking it and freeing the entry's old slot keeps the placement invariant |
| Journal.WriteJournal | kernel/btier/btier_main.c:563-577 | only the source device's header changes: the journal holds the copies of the old and new entries and the block number, and its clean flag is kept |
| Journal.CleanJournal | kernel/btier/btier_main.c:579-593 | both journal records are zero, the block number is 0 and the header is CLEAN; the bitlist, the cursor, the geometry and the other devices are unchanged |
| Journal.DiskWrite | kernel/btier/btier_main.c:523-561 | the on-disk record of the block passes `same_blockinfo` against the entry; no other record and no device changes |
| Journal.FreeSlot | kernel/btier/btier_main.c:239-261 | `clear_dev_list` on the durable state: only the freed block's device changes, as `ClearSlot` says |
| Journal.Recover | kernel/btier/btier_main.c:595-621 | after recovery the journal is clear and both maps keep their sizes |
| Journal.RecoverClearIsNoop | kernel/btier/btier_main.c:600-601 | recovery of a clear journal changes nothing |
| Journal.RecoverReverts | kernel/btier/btier_main.c:595-621 | recovery of a pending journal reverts the on-disk record of the journalled block to the old entry (stamped now). It frees the new location's slot, changes no other record and no other device, and marks the header CLEAN |
| Journal.RecoverIdempotent | kernel/btier/btier_main.c:579-621 | recovery is idempotent: a second recovery, at any time, is a no-op |
| Journal.MigrationSteps | kernel/btier/btier_main.c:756-771 | the five durable states of `copyblock`, from the allocation to the journal clear: the first is the start state and the last is the commit. When the allocating device keeps the target's geometry, every step keeps the geometry |
| Journal.CommitMeta | kernel/btier/btier_main.c:756-771 | a completed `copyblock`: the block's record is the new entry, no other record changes, the source journal is clear and its header CLEAN. The target's bitlist and policy are those of the allocation; every other device keeps its bitlist and policy |
| Journal.CrashSafeMigration | kernel/btier/btier_main.c:735-781 | a crash at any step of `copyblock`, followed by recovery of the source device's journal, leaves the block's on-disk record at the old or the new location, and that slot is ALLOCATED |
| Journal.CrashBeforeJournal | kernel/btier/btier_main.c:756-768 | a crash before the journal is written: recovery has nothing to do and the record is still at the ALLOCATED old slot |
| Journal.CrashWhileJournalled | kernel/btier/btier_main.c:769-770 | a crash while the journal is pending: recovery puts the record back at the old slot, which is still ALLOCATED |
| Journal.JournalledState | kernel/btier/btier_main.c:769 | once the journal is written it records the move, and the old slot is still ALLOCATED |
| Journal.RecoverPending | kernel/btier/btier_main.c:595-621 | recovering a journal that records a move, with the old slot ALLOCATED, is safe in the sense above |
| Journal.AliasedCommit | kernel/btier/btier_main.c:769-772 | a completed `copyblock` whose `olddevice` is the map entry. The block's record is the new entry and no other record changes. The NEW tier's journal is cleared and its header CLEAN. The old tier's journal still records the old entry, the new entry and the block, with its clean flag kept |
| Journal.AttachCheck | kernel/btier/btier_main.c:1493-1498 | a header not marked CLEAN is recovered and its journal is clear afterwards; a clear journal is left as it is |
| Journal.SecondMigrationEscapesRecovery | kernel/btier/btier_main.c:563-593 | after a completed migration, the journal of the next migration from the same tier sits on a CLEAN header with a pending journal, and the attach check leaves that state unchanged |
| Journal.CrashAfterCommit | kernel/btier/btier_main.c:770-772 | a crash after the journal is cleared: the record is at the new slot, which is ALLOCATED, and recovery has nothing to do |
| Policy.AvgHits | kernel/btier/btier_main.c:806 | a device's average hits is its read average plus its write average |
| Policy.PromoteTo | kernel/btier/btier_main.c:797-826 | the block stays or moves up exactly one tier; an allocated block stays allocated |
| Policy.PromoteIff | kernel/btier/btier_main.c:797-826 | promotion happens exactly when the block is below tier 0, `hits > avg + avg/n` on its own tier and `hits > next - next/n` on the next-faster one |
| Policy.DemoteTo | kernel/btier/btier_main.c:866-883 | the block stays or moves down exactly one tier, never past the attached tiers; an unallocated block stays unallocated |
| Policy.DemoteIff | kernel/btier/btier_main.c:866-883 | demotion happens exactly when the block is not on the slowest tier and is either older than `max_age`, or colder than `avg - avg/n` for longer than `hit_collecttime` with `device + 1 < n` (1-based `device`) |
| Policy.SlowestTierOnlyByAge | kernel/btier/btier_main.c:878 | because of the `device + 1 < n` test, a block reaches the slowest tier only by age |
| Policy.Average | kernel/btier/btier_main.c:699-702 | the average is the floor of the total over the device's block count |
| Policy.RecomputeAverages | kernel/btier/btier_main.c:1048-1055 | walk_blocklist's averages are the floors of the totals over the block count; nothing else in the device changes |
| Policy.ResetCounters | kernel/btier/btier_main.c:683-714 | the totals lose the departed block's counts (u64 wrap) and each average is the floor of its total over the block count, bounded from both sides; nothing else in the device changes |
| Policy.ResetCountersExact | kernel/btier/btier_main.c:697-698 | when the totals hold the departed block's counts, the reset takes exactly those counts away |
| Policy.Decay | kernel/btier/btier_main.c:1060-1073 | a count at or above MAX_STAT_COUNT loses MAX_STAT_DECAY in the entry, and the device total loses it with u64 wrap; a count below it leaves the entry and the total alone; nothing else changes |
| Policy.DecayKeepsBalance | kernel/btier/btier_main.c:1060-1073 | decay never raises a count, keeps total minus the block's count unchanged, and keeps the count within the total |
| Migration.CopyOutcome | kernel/btier/btier_main.c:735-781 | the return codes of `copyblock` in both directions: -EEXIST (same tier, counters already zeroed), -ENOSPC (no slot), -EIO (failed copy) and 0. Only a completed copy writes the maps. -EEXIST and -ENOSPC change nothing durable, and -EIO keeps the slot the allocation took |
| Migration.CopyKeepsShape | kernel/btier/btier_main.c:735-781 | `copyblock` keeps the state well formed, the geometry and every data policy |
| Migration.CopyCommits | kernel/btier/btier_main.c:742-778 | a completed copy leaves the entry on the target tier with zeroed counters and stamped, at a slot that was free and is now marked, inside the data region. No other bitlist changes, the on-disk record is the new entry and no other record changes, and the source journal is clear |
| Migration.CopyFailureLeaksAtMost | kernel/btier/btier_main.c:756-766 | a failed copy keeps every ALLOCATED byte ALLOCATED and the geometry; at most the slot it took leaks |
| Migration.FreeSourceFacts | kernel/btier/btier_main.c:833-834 | after a completed copy the movers clear exactly the old slot and reset only the source device's counters, keeping the geometry and every policy |
| Migration.MoveKeepsShape | kernel/btier/btier_main.c:829-840 | a move keeps the state well formed, the geometry and every data policy |
| Migration.MoveOutcome | kernel/btier/btier_main.c:829-840 | a move is refused exactly when the target is the entry's own tier. It succeeds exactly when the target differs, has room and the copy works; otherwise neither map changes |
| Migration.MoveCommits | kernel/btier/btier_main.c:829-840 | a completed move leaves the entry on the target tier with zeroed counters and stamped. Both maps agree on it, no other record changes and the source journal is clear |
| Migration.MoveIsMoveOk | kernel/btier/btier_main.c:829-840 | a completed move marks a slot that was free on the target tier, frees the old slot and changes no other bitlist |
| Migration.MoveFailureLeaksAtMost | kernel/btier/btier_main.c:836-839 | a failed move restores the entry (the `memcpy` back) and at most leaks a slot |
| Migration.MovePreservesPlacement | kernel/btier/btier_main.c:829-840 | every move, completed or failed, keeps the placement invariant |
| Migration.MoveKeeps | kernel/btier/btier_main.c:829-840 | a move keeps the state, the geometry, the policies, the invariant and every other entry; the entry keeps its value or sits on the target tier |
| Migration.MoveWhen | kernel/btier/btier_main.c:829-840 | the entry changes tier exactly when the target is another tier, it had room and the copy worked |
| Migration.MigrateUpKeeps | kernel/btier/btier_main.c:783-843 | `migrate_up_ifneeded` keeps the state and moves the block at most one tier up. A block on tier 0 or unallocated is left alone; a failed move leaves the map as it was |
| Migration.MigrateUpWhen | kernel/btier/btier_main.c:783-843 | the block changes tier exactly when the thresholds ask for it and the move completes |
| Migration.MigrateDownKeeps | kernel/btier/btier_main.c:845-897 | `migrate_down_ifneeded` keeps the state and moves the block at most one tier down, never past the last tier. An unallocated block is left alone; a failed move leaves the map as it was |
| Migration.MigrateDownWhen | kernel/btier/btier_main.c:845-897 | the block changes tier exactly when the thresholds ask for it and the move completes |
| Migration.UpdateSyncs | kernel/btier/btier_main.c:496-515 | after `update_blocklist` the disk record agrees with the entry and only that entry and record may change. Nothing is written exactly when they already agreed |
| Migration.UpdateKeeps | kernel/btier/btier_main.c:496-515 | `update_blocklist` keeps the state and the placement invariant |
| Migration.VisitKeeps | kernel/btier/btier_main.c:1047-1076 | one block of the walk keeps the state and the invariant, changes no other entry and moves the block at most one tier |
| Migration.WalkedStep | kernel/btier/btier_main.c:1036-1096 | the walk's loop invariant: visiting one block extends the visited range past it, leaves later entries alone, and meets no busy block unless this one is |
| Migration.KeepsAllStep | kernel/btier/btier_main.c:1036-1094 | the walk's loop invariant: a step on one block composes with the steps before it |
| Migration.DisableMigration | kernel/btier/btier_main.c:1132-1143 | only tier 0's policy changes, and it has migration disabled |
| Migration.DisableKeeps | kernel/btier/btier_main.c:1132-1143 | disabling migration keeps the state, the geometry and the invariant |
| Migration.MigrateDirectlyKeeps | kernel/btier/btier_main.c:1121-1179 | a direct migration leaves migration disabled and keeps the state, the geometry and the invariant. Only the named block may change, and a block number outside the map changes nothing |
| Migration.DirectMoveKeeps | kernel/btier/btier_main.c:1147-1176 | the move part of a direct migration keeps the state |
| Migration.MigrateDirectlyWhen | kernel/btier/btier_main.c:1147-1176 | the block ends up on the named tier exactly when it was allocated elsewhere, the target had room and the copy worked; otherwise it keeps its value |
| Migration.FreedSlot | kernel/btier/btier_main.c:2236-2237 | the slot freed by the movers is marked free afterwards |
| Migration.EvacuateOneFacts | kernel/btier/btier_main.c:2226-2245 | one block of `migrate_data_if_needed` keeps the state well formed. A failed copy returns its code with the map unchanged. A completed one leaves the block alone changed, on the grown tier with zeroed counters, on a slot marked free (the NEW slot is freed). The grown tier's journal is clear, and tier 0's journal still records the block's old and new entries |
| Migration.CopyOnEntryCommits | kernel/btier/btier_main.c:735-781 | `copyblock` with `olddevice` the map entry returns what `copyblock` with a separate record returns and keeps the state well formed. On success the new slot is marked and only the block's record changes. The clean goes to the new tier, and the old tier's journal stays pending |
| Migration.EvacuateAt | kernel/btier/btier_main.c:2211-2251 | an iteration that goes on leaves a well-formed state, and skips blocks off tier 0 or out of range, and every block once in error, unchanged |
| Migration.EvacuateSteps | kernel/btier/btier_main.c:2210-2251 | the loop is its iterations in order |
| Migration.EvacuateOutcome | kernel/btier/btier_main.c:2199-2255 | return 0: no copy completed and the map is unchanged. -EIO: exactly when the device is in error and a block is left. -1: exactly one block of tier 0 in the range was moved to the grown tier, onto a slot marked free, with tier 0's journal left pending on that move |
| Migration.EvacuateLeavesJournalPending | kernel/btier/btier_main.c:2226-2245 | after a -1 return, tier 0's journal is pending and records a block of the range moved from tier 0 to the grown tier, whose own journal is clear |
| Migration.EvacuateBreaksPlacement | kernel/btier/btier_main.c:2234-2249 | a -1 return leaves the map inconsistent with the bitlists |
| Migration.OnFreeSlot | kernel/btier/btier_main.c:2237 | an allocated entry on a slot marked free breaks consistency |
| Repair.WipeAll | kernel/btier/btier_main.c:1398-1402 | every attached bitlist is wiped and its cursor reset, the geometry kept |
| Repair.RepairStep | kernel/btier/btier_main.c:1405-1431 | one entry: an entry on a tier that is not attached, or whose block does not fit in its device, is cleared; no other entry changes, the geometry is kept, and a cleared entry touches no device |
| Repair.StepMarks | kernel/btier/btier_main.c:1424-1430 | a kept entry marks exactly its slot and writes its index to the stray `free_offset` |
| Repair.ScrubbedUpTo | kernel/btier/btier_main.c:1404-1432 | the map after the first n entries: each is cleared if corrupt, kept otherwise |
| Repair.MarkedBits | kernel/btier/btier_main.c:1404-1432 | a bitlist after the first n entries: a byte is ALLOCATED if a kept entry among them sits on it, else as before |
| Repair.MarkedUpTo | kernel/btier/btier_main.c:1404-1432 | the devices after the first n entries: only bitlists change |
| Repair.LastKept | kernel/btier/btier_main.c:1429 | the last kept entry, whose index the stray write leaves behind |
| Repair.ReferencedStep | kernel/btier/btier_main.c:1404-1432 | one more entry references a slot exactly when it is kept on it |
| Repair.RebuiltNone | kernel/btier/btier_main.c:1404 | before the loop nothing has changed |
| Repair.RebuildStep | kernel/btier/btier_main.c:1404-1432 | one iteration carries the state after n entries to the state after n+1 |
| Repair.RepairConsistent | kernel/btier/btier_main.c:1390-1433 | after the repair every entry is cleared if corrupt and kept otherwise, and every cursor is 0. A byte is ALLOCATED exactly when a kept entry sits on it, so every entry left allocated names an ALLOCATED slot |
| Repair.RepairKeepsSharing | kernel/btier/btier_main.c:1404-1432 | two kept entries on one slot stay on it: the repair does not restore exclusive placement |
| Repair.RepairedStray | kernel/btier/btier_main.c:1429 | the stray `free_offset` ends at the slot of the last kept entry, or unchanged when none is kept |
| DeviceNamePool.FindFree | kernel/btier/btier_main.c:1265-1270 | the first slot at or after the start that is not taken, all before it taken |
| DeviceNamePool.Release | kernel/btier/btier_main.c:1245-1257 | releasing keeps the pool's size |
| DeviceNamePool.ReserveFirstFree | kernel/btier/btier_main.c:1259-1277 | reserving hands out `sdtier` plus the lowest free letter and takes exactly that slot. It fails exactly when every slot is taken, and then changes nothing |
| DeviceNamePool.ReserveReleaseRoundTrip | kernel/btier/btier_main.c:1245-1277 | releasing the name just reserved restores the pool |
| DeviceNamePool.DeviceNames.constructor | kernel/btier/btier_main.c:1229-1243 | every slot holds its letter |
| DeviceNamePool.DeviceNames.ReserveName | kernel/btier/btier_main.c:1259-1277 | the loop returns and leaves what `Reserve` says |
| DeviceNamePool.DeviceNames.ReleaseName | kernel/btier/btier_main.c:1245-1257 | the table becomes what `Release` says and stays valid |
| Ordering.Swap | kernel/btier/btier_main.c:1484-1487 | the two slots exchange their devices, nothing else moves |
| Ordering.SwapStep | kernel/btier/btier_main.c:1478-1488 | the device in slot i ends in the slot its header records; the table is a permutation |
| Ordering.SwapPass | kernel/btier/btier_main.c:1477-1489 | the pass keeps every recorded tier in range |
| Ordering.SwapPassPermutes | kernel/btier/btier_main.c:1477-1489 | the pass only rearranges the devices |
| Ordering.SwapPassKeepsOrdered | kernel/btier/btier_main.c:1477-1489 | a table whose every device is already in its recorded slot is left as it is |
| Ordering.SwapPassCanMisorder | kernel/btier/btier_main.c:1477-1489 | with headers 1, 2, 3, 0 a single pass ends with 2, 1, 0, 3: the pass does not re-check the slot it filled |
| Ordering.OrderDevices | kernel/btier/btier_main.c:1477-1489 | the loop leaves the table as the pass says, a permutation of the input |
| Ordering.SwapSlot | kernel/btier/btier_main.c:1478-1488 | one iteration of the loop is `SwapStep` |
| Ordering.DeviceDefaults | kernel/btier/btier_main.c:1506-1509 | a zero `max_age` or `hit_collecttime` takes the default, a set one is kept, nothing else changes |
| Ordering.Tier0Defaults | kernel/btier/btier_main.c:1512-1516 | a landing tier past the attached ones becomes 0, a zero interval takes the default, nothing else changes |
| Ordering.DefaultsSettle | kernel/btier/btier_main.c:1506-1516 | after the defaults every age and interval is positive, the landing tier is attached, set values are kept |
| Ordering.DefaultsIdempotent | kernel/btier/btier_main.c:1506-1516 | applying the defaults twice is applying them once |
| Sizing.ShiftRightBounds | kernel/btier/btier_main.c:632 | `x >> k` is the floor of x / 2^k |
| Sizing.Log2OfPow2 | kernel/btier/btier_main.c:627-631 | the shift found for 2^k is k |
| Sizing.SectorDivide | kernel/btier/btier_main.c:623-633 | the result is the size shifted by floor(log2(sector size)); for a power-of-two sector size, the number of whole sectors |
| Sizing.DiscardRange | kernel/btier/btier_main.c:663-671 | a range that is discarded has at least one sector |
| Sizing.DiscardWithinBlock | kernel/btier/btier_main.c:663-671 | for a power-of-two sector size, the discarded sectors start at the first whole sector of the block and end at the last, never outside it |
| Sizing.RoundDownToSector | kernel/btier/btier_main.c:1811-1822 | the largest multiple of 512 not above the size |
| Sizing.LogicalBlockSize | kernel/btier/btier_main.c:1618-1623 | the size is kept or falls back to 512 |
| Sizing.LogicalBlockSizeRange | kernel/btier/btier_main.c:1618-1623 | exactly 512, 1024, 2048 and 4096 are kept, so the result is always one of them |
| Sizing.CalcNewDevsize | kernel/btier/btier_main.c:2044-2059 | the u64 sum of the usable sizes, the resized device at its new size less the header |
| Sizing.UsableSumNonNegative | kernel/btier/btier_main.c:2044-2059 | when every device is larger than what it loses, the usable sum is non-negative |
| Sizing.NewTotalBitlistsize | kernel/btier/btier_main.c:2061-2075 | the u64 sum of the bitlist sizes with the resized one replaced |
| Sizing.BitlistSumReplace | kernel/btier/btier_main.c:2061-2075 | replacing one device's size changes the sum by exactly the difference |
| Sizing.ResizeGuard | kernel/btier/btier_main.c:2346-2368 | a device that is resized changed size |
| Sizing.ResizeOnlyGrows | kernel/btier/btier_main.c:2346-2368 | a device is resized exactly when it has room for the old size, the new lists and a block, and grew by at least the bitlist; a shrunk device, whose wrapped growth passes the second guard, is caught by the third |
| Engine.TierDevice.constructor | kernel/btier/btier_main.c:911-935 | a device with its maps and bitlists loaded is well formed, with no pending request and the walk at block 0 |
| Engine.TierDevice.MarkOffsetAsUsed | kernel/btier/btier_main.c:218-237 | the device becomes `MarkUsed` of the old one |
| Engine.TierDevice.ClearDevList | kernel/btier/btier_main.c:239-261 | the durable state becomes `FreeSlot` of the old one |
| Engine.TierDevice.AllocateDev | kernel/btier/btier_main.c:263-315 | the nested page and byte scan leaves the device and the entry as `AllocateSpec` says; no other device changes |
| Engine.TierDevice.AllocatedOnDevice | kernel/btier/btier_main.c:1328-1388 | the bytes in use are the ALLOCATED count times BLKSIZE |
| Engine.TierDevice.WipeBitlist | kernel/btier/btier_main.c:1310-1326 | a page at a time and then the rest, the bitlist becomes all zero; nothing else changes |
| Engine.TierDevice.WipeBitlists | kernel/btier/btier_main.c:1398-1402 | the devices become `WipeAll` of the old ones |
| Engine.TierDevice.RepairEntry | kernel/btier/btier_main.c:1405-1431 | one iteration of the repair is `RepairStep` |
| Engine.TierDevice.RebuildBitlists | kernel/btier/btier_main.c:1404-1432 | the loop leaves the state `Rebuilt` after every entry; once in error it stops before the first entry |
| Engine.TierDevice.RepairBitlists | kernel/btier/btier_main.c:1390-1433 | the state becomes `Repaired` of the old one and is consistent. Once in error it stops after the wipe |
| Engine.TierDevice.WriteBlocklist | kernel/btier/btier_main.c:523-561 | the entry is stamped now; WC writes only the map, WD only the disk, WA both |
| Engine.TierDevice.UpdateBlocklist | kernel/btier/btier_main.c:496-515 | nothing once in error; otherwise as `Update` |
| Engine.TierDevice.WriteBlocklistJournal | kernel/btier/btier_main.c:563-577 | the durable state becomes `WriteJournal` of the old one |
| Engine.TierDevice.CleanBlocklistJournal | kernel/btier/btier_main.c:579-593 | the durable state becomes `CleanJournal` of the old one |
| Engine.TierDevice.RecoverJournal | kernel/btier/btier_main.c:595-621 | the durable state becomes `Recover` of the old one |
| Engine.TierDevice.ResetCountersOnMigration | kernel/btier/btier_main.c:683-714 | the source device becomes `ResetCounters` of the old one |
| Engine.TierDevice.CopyBlock | kernel/btier/btier_main.c:735-781 | the return code, the new entry and the new state are `Copy` of the old state, or `CopyOnEntry` when `olddevice` is the map entry |
| Engine.TierDevice.ReleaseSource | kernel/btier/btier_main.c:833-834 | the devices become `FreeSource` of the old ones |
| Engine.TierDevice.MoveBlock | kernel/btier/btier_main.c:829-840 | the return code and the new state are `Move` of the old state |
| Engine.TierDevice.MigrateUpIfNeeded | kernel/btier/btier_main.c:783-843 | the return code and the new state are `MigrateUp` of the old state |
| Engine.TierDevice.MigrateDownIfNeeded | kernel/btier/btier_main.c:845-897 | the return code and the new state are `MigrateDown` of the old state |
| Engine.TierDevice.VisitBlock | kernel/btier/btier_main.c:1047-1076 | the new state is `Visit` of the old state |
| Engine.TierDevice.RecomputeAveragesOf | kernel/btier/btier_main.c:1048-1055 | the device becomes `RecomputeAverages` of the old one |
| Engine.TierDevice.DecayAndUpdate | kernel/btier/btier_main.c:1060-1074 | the decayed entry and totals are written out as `Update` says |
| Engine.TierDevice.VisitKept | kernel/btier/btier_main.c:1047-1076 | a walk step keeps the state and the invariant and moves the block at most one tier |
| Engine.TierDevice.WalkFrom | kernel/btier/btier_main.c:1036-1096 | the block loop keeps the state and the invariant, and moves each block at most one tier. It stops at the first visited block of `busy` and sets the cursor there, leaving the blocks after it and before the start untouched. In error it changes nothing |
| Engine.TierDevice.WalkBlocklist | kernel/btier/btier_main.c:1020-1119 | the walk keeps the state, the invariant and every policy, and moves each block at most one tier. Blocks before the resume point are untouched. An interrupted walk resumes at the first busy block with a 3000 ms timer, and blocks after it are untouched; a full pass resets the cursor to 0 with the policy's interval. The timer is re-armed exactly when not stopped and not disabled |
| Engine.TierDevice.MigrateDirect | kernel/btier/btier_main.c:899-909 | -EAGAIN with the slot unchanged under normal I/O or while a request is pending; otherwise the request is recorded and 0 returned |
| Engine.TierDevice.DoMigrateDirect | kernel/btier/btier_main.c:1121-1179 | the new state is `MigrateDirectly` of the old state |
| Engine.TierDevice.MoveDirect | kernel/btier/btier_main.c:1147-1176 | the new state is `DirectMove` of the old state |
| Engine.TierDevice.DisableMigrationOf | kernel/btier/btier_main.c:1132-1143 | the durable state becomes `DisableMigration` of the old one |
| Engine.TierDevice.DataMigratorStep | kernel/btier/btier_main.c:1181-1227 | a stop changes nothing. A pending request is carried out and cleared. Normal I/O changes nothing and re-arms a 300 ms timer unless disabled. Otherwise the walk runs and keeps the state; the device stays well formed throughout |
| Engine.TierDevice.EvacuateBlock | kernel/btier/btier_main.c:2226-2245 | the result and the new state are `EvacuateOne` of the old state, so a completed copy cleans the grown tier's journal and leaves tier 0's pending |
| Engine.TierDevice.EvacuateStep | kernel/btier/btier_main.c:2211-2251 | one iteration stops or goes on as `EvacuateAt` says, with the copy committed through the aliased `olddevice` |
| Engine.TierDevice.MigrateDataIfNeeded | kernel/btier/btier_main.c:2199-2255 | the result and the new state are `Evacuate` of the old state from block 0, which models the aliased `olddevice`: a -1 return has moved one block and left tier 0's journal pending |

## Left out

- Real I/O is not modelled: file reads and writes, `vfs_fsync_range`, `sync_device`, `tier_sync` and `blkdev_issue_discard`. The disk is the `diskmap` and the bitlists, and one bitlist per device stands for both its in-memory and on-disk copies.
- The data copy `tier_moving_block` is the boolean `moveOk` (or membership in `fails`); `get_seconds()` is the parameter `now`.
- Normal I/O pending in `wqlock` is `normalIo` (or membership in `busy`). Locks, spinlocks, atomics, wait queues and timers are left out; only the flags and the chosen timer delay are kept.
- The `data_migrator` wait loop is modelled as one wake-up (`DataMigratorStep`), for the same reason.
- `get_blockinfo` is not part of this model. Block `k` is entry `k` of `cache`; the driver's NULL result is a block number outside the map. `migrate_data_if_needed` is modelled with its `binfo` aliasing the map entry. That is why the new slot is freed, the counters of the new tier are reset and the journal of the new tier is cleaned.
- `calc_bitlist_size`, `calc_blocklist_size`, `round_to_blksize` and `btier_div` are not part of this model; sizes enter as parameters and `btier_div` is floor division.
- Copy: a failed data copy is reported as -EIO, whereas the driver returns whatever `tier_moving_block` returned.
- Bitlist.MigrateBitlist: any I/O failure is reported as -1, whereas the driver passes on the error code of `copylist` or `vfs_fsync_range`.
- Policy.PromoteTo and Policy.DemoteTo: the thresholds are computed on unbounded integers. A u64 overflow of `avg + avg/n` is not modelled, and neither is the mixing of `time_t` and unsigned `lastused`.
- Engine.TierDevice.AllocatedOnDevice requires the bitlist to be a whole number of pages. The driver's trailing loop would double-count the last page otherwise.
- Engine.TierDevice.RepairBitlists requires every entry it keeps to lie inside its device's data region: below `startofdata` the driver's unsigned subtraction underflows.
- Repair.RepairConsistent: the repair does not restore exclusive placement (`Repair.RepairKeepsSharing`), so only consistency is proved of its result.
- `repair_bitlists` zeroes the map entry in memory only; the on-disk map is not rewritten, and so the model leaves `diskmap` alone there too.
- `update_blocklist` turns a read error into `tiererror`. The error flag `inerror` is kept as a field that no modelled operation sets.
- Engine.TierDevice.DoMigrateDirect requires the recorded target tier to be attached. The driver does not check `newdevice`; the model requires it attached.
- `discard_on_real_device` is modelled only for its sector-range arithmetic (`Sizing.DiscardRange`), because the discard itself talks to the block layer.
- `tier_device_register` is modelled only for its logical-block-size fallback and `sector_divide`. `order_devices` is modelled only for its swap loop and its policy defaults; reading the headers, the uuid and the DIRTY marking are left out, and `tier_check` is `Journal.AttachCheck`.
- Ordering.OrderDevices requires every tier number in the headers to be within the attached count. The driver indexes `backdev[newnr]` without that check.
- `do_resize_tier` and `migrate_blocklist` are left out: they are I/O moving lists on the disk. Only the guards of `resize_tier` and the sums it uses are modelled, and `resize_tier` is modelled one device at a time (`Sizing.ResizeGuard`).
- Kernel registration, ioctl, sysfs, `btier_uuid`, `as_sprintf` and memory allocation (`load_blocklist`, `load_bitlists`, `alloc_moving_bio`, `alloc_blocklock`) are left out, because they are plumbing. The constructor takes the maps and bitlists as already loaded.
- In-place aliasing of the driver's `binfo` references is modelled by values: a mover's saved `orgbinfo` is the entry before the call.
- The driver's compile-time constants (BLKSIZE, PAGE_SIZE, MAX_STAT_COUNT, MAX_STAT_DECAY, TIERMAXAGE, TIERHITCOLLECTTIME, MIGRATE_INTERVAL, CLEAN, DIRTY) are parameters, because the header that defines them is not part of this model.
