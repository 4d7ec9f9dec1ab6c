/**
  The migration engine of a btier device as a class: the in-memory block
  map, the on-disk block map and the attached backing devices are fields
  the operations update in place, as the driver's `struct tier_device`
  does. Each method is specified against the value-level functions of
  the other modules, so a caller reasons about a method by its contract.
 */
module Engine {
  import opened BtierTypes
  import opened BlockRecords
  import opened Bitlist
  import opened Journal
  import opened Policy
  import opened Placement
  import opened Migration
  import opened Repair

  /** The `write_policy` argument of `write_blocklist`: cache only, disk
      only, or both. */
  datatype WritePolicy = WC | WD | WA

  class TierDevice {
    /** The driver's compile-time constants. */
    const cfg: ValidConfig
    /** The in-memory block map (`backdev[0]->blocklist`). */
    var cache: seq<BlockInfo>
    /** The on-disk block map of tier 0. */
    var diskmap: seq<PhysicalBlockInfo>
    /** The attached backing devices, fastest first. */
    var devs: seq<BackingDevice>
    /** `free_offset` of the device slot just past the attached ones, which
        `repair_bitlists` writes through a stale index. */
    var strayFreeOffset: nat
    /** Block where the next walk of the block map resumes. */
    var resumeBlockwalk: nat
    /** A pending direct migration request: block and 0-based target. */
    var direct: bool
    var directBlocknr: nat
    var directNewdevice: nat
    /** The device is being shut down. */
    var stop: bool
    /** A metadata write has failed: the engine stops touching metadata. */
    var inerror: bool

    /** The maps line up, the devices are well formed and every entry is
        unallocated or names a slot of an attached device. */
    ghost predicate Valid()
      reads this
    {
      Wf(cache, Durable(), cfg)
    }

    /** Valid, and no entry sits on a free or a shared slot. */
    ghost predicate Sound()
      reads this
    {
      Valid() && Placed(cache, devs, cfg)
    }

    /** What survives a crash. */
    function Durable(): Meta
      reads this
    {
      Meta(diskmap, devs)
    }

    /** A device with its block map and bitlists loaded. */
    constructor (cfg: ValidConfig, cache: seq<BlockInfo>, diskmap: seq<PhysicalBlockInfo>,
                 devs: seq<BackingDevice>)
      requires |cache| == |diskmap| && Shaped(devs, cfg) && MapOk(cache, Layout(devs), cfg)
      ensures Valid()
      ensures this.cfg == cfg && this.cache == cache && this.diskmap == diskmap && this.devs == devs
      ensures strayFreeOffset == 0 && resumeBlockwalk == 0
      ensures !direct && !stop && !inerror
    {
      this.cfg := cfg;
      this.cache := cache;
      this.diskmap := diskmap;
      this.devs := devs;
      strayFreeOffset := 0;
      resumeBlockwalk := 0;
      direct := false;
      directBlocknr := 0;
      directNewdevice := 0;
      stop := false;
      inerror := false;
    }

    /** `mark_offset_as_used`: the slot of the block at data-relative
        `offset` of device `device` becomes ALLOCATED. */
    method MarkOffsetAsUsed(device: nat, offset: nat)
      requires device < |devs| && offset / cfg.blkSize < |devs[device].bitlist|
      modifies this`devs
      ensures devs == old(devs)[device := MarkUsed(old(devs[device]), offset / cfg.blkSize)]
    {
      var boffset := offset / cfg.blkSize;
      var bd := devs[device];
      devs := devs[device := bd.(bitlist := bd.bitlist[boffset := Allocated])];
    }

    /** `clear_dev_list`: the slot of the block `b` lived at is freed and
        the free cursor rewinds to it when it lies below. */
    method ClearDevList(b: BlockInfo)
      requires 1 <= b.device <= |devs| && SlotInRange(devs[b.device - 1], b.offset, cfg)
      modifies this`devs
      ensures Durable() == FreeSlot(old(Durable()), b.device, b.offset, cfg)
    {
      var d := b.device - 1;
      var bd := devs[d];
      var boffset := (b.offset - bd.startOfData) / cfg.blkSize;
      var fo := if bd.freeOffset > boffset then boffset else bd.freeOffset;
      devs := devs[d := bd.(freeOffset := fo, bitlist := bd.bitlist[boffset := Unallocated])];
    }

    /** `allocate_dev`: first-fit search of device `device`'s bitlist from
        the page holding its free cursor, page by page. */
    method AllocateDev(blocknr: nat, binfo: BlockInfo, device: nat) returns (b: BlockInfo)
      requires device < |devs| && DeviceValid(devs[device], cfg)
      modifies this`devs
      ensures |devs| == |old(devs)| && devs == old(devs)[device := devs[device]]
      ensures (devs[device], b) == AllocateSpec(old(devs[device]), binfo, device, cfg)
    {
      var bd := devs[device];
      var p, blk := cfg.pageSize, cfg.blkSize;
      ghost var from := PageStart(bd.freeOffset, cfg);
      var cur := bd.freeOffset / p;
      b := binfo;
      while b.device == 0 && cur * p < bd.bitlistSize
        invariant b == binfo && devs == old(devs)
        invariant from <= cur * p
        invariant forall j :: from <= j < cur * p && j < |bd.bitlist| ==> bd.bitlist[j] == Allocated
        decreases bd.bitlistSize - cur * p
      {
        ghost var page := cur * p;
        PageFits(cur, p, bd.bitlistSize);
        var bc := 0;
        while b.device == 0
          invariant 0 <= bc < p && b == binfo && devs == old(devs)
          invariant forall j :: from <= j < page + bc ==> bd.bitlist[j] == Allocated
          decreases p - bc
        {
          if bd.bitlist[cur * p + bc] != Allocated {
            ghost var i := page + bc;
            var rel := cur * p * blk + bc * blk;
            SlotOffset(page, bc, blk);
            b := b.(offset := rel + bd.startOfData);
            if b.offset + blk > bd.endOfData {
              return;
            }
            var boffset := rel / blk;
            devs := devs[device := bd.(freeOffset := boffset, usedOffset := b.offset,
                                       bitlist := bd.bitlist[boffset := Allocated])];
            b := b.(device := device + 1);
            MarkOffsetAsUsed(device, rel);
            assert devs[device].bitlist == bd.bitlist[i := Allocated];
            return;
          }
          bc := bc + 1;
          if bc >= p {
            break;
          }
        }
        cur := cur + 1;
      }
    }

    /** `allocated_on_device`: bytes of device `device` in use, counted
        page by page over its loaded bitlist. The bitlist is a whole number
        of pages, so the driver's loop over a trailing partial page never
        runs. */
    method AllocatedOnDevice(device: nat) returns (bytes: nat)
      requires device < |devs| && DeviceValid(devs[device], cfg)
      ensures bytes == CountAllocated(devs[device].bitlist) * cfg.blkSize
    {
      var bits := devs[device].bitlist;
      var n, p, blk := devs[device].bitlistSize, cfg.pageSize, cfg.blkSize;
      var offset := 0;
      bytes := 0;
      ghost var pages: nat := 0;
      while offset < n
        invariant offset <= n && offset == pages * p
        invariant bytes == CountAllocated(bits[..offset]) * blk
      {
        PageFits(pages, p, n);
        var buffer := bits[offset..offset + p];
        var i := 0;
        while i < p
          invariant 0 <= i <= p
          invariant bytes == CountAllocated(bits[..offset + i]) * blk
        {
          CountPrefixStep(bits, offset + i, blk);
          if buffer[i] == Allocated {
            bytes := bytes + blk;
          }
          i := i + 1;
        }
        offset := offset + p;
        pages := pages + 1;
      }
      assert bits[..offset] == bits;
    }

    /** `wipe_bitlist`: the bitlist of device `device` is zeroed a page at
        a time, then the remainder. */
    method WipeBitlist(device: nat)
      requires device < |devs|
      modifies this`devs
      ensures devs == old(devs)[device := old(devs[device]).(bitlist := Zeros(|old(devs[device]).bitlist|))]
    {
      var bd := devs[device];
      var n := |bd.bitlist|;
      var bl := bd.bitlist;
      var offset := 0;
      while offset + cfg.pageSize < n
        invariant offset <= n && |bl| == n
        invariant forall j :: 0 <= j < offset ==> bl[j] == Unallocated
      {
        bl := bl[..offset] + Zeros(cfg.pageSize) + bl[offset + cfg.pageSize..];
        offset := offset + cfg.pageSize;
      }
      if offset < n {
        bl := bl[..offset] + Zeros(n - offset);
      }
      assert bl == Zeros(n);
      devs := devs[device := bd.(bitlist := bl)];
    }

    /** The first loop of `repair_bitlists`: every attached device is
        wiped and its free cursor reset. */
    method WipeBitlists()
      modifies this`devs
      ensures devs == WipeAll(old(devs))
    {
      var i := 0;
      while i < |devs|
        invariant i <= |devs| == |old(devs)|
        invariant forall e :: 0 <= e < i ==> devs[e] == Wipe(old(devs[e]))
        invariant forall e :: i <= e < |devs| ==> devs[e] == old(devs[e])
      {
        WipeBitlist(i);
        devs := devs[i := devs[i].(freeOffset := 0)];
        i := i + 1;
      }
    }

    /** One iteration of `repair_bitlists`' second loop, at entry `k`. */
    method RepairEntry(k: nat)
      requires k < |cache| && Fits(cache[k], devs, cfg)
      modifies this`cache, this`devs, this`strayFreeOffset
      ensures RepairState(cache, devs, strayFreeOffset)
              == RepairStep(RepairState(old(cache), old(devs), old(strayFreeOffset)), k, cfg)
    {
      var b := cache[k];
      if b.device != 0 {
        if b.device > |devs| {
          cache := cache[k := ZeroBlockInfo];
          return;
        }
        if cfg.blkSize + b.offset > devs[b.device - 1].deviceSize {
          cache := cache[k := ZeroBlockInfo];
          return;
        }
        var rel := b.offset - devs[b.device - 1].startOfData;
        MarkOffsetAsUsed(b.device - 1, rel);
        strayFreeOffset := rel / cfg.blkSize;
      }
    }

    /** The second loop of `repair_bitlists`, over the block map. */
    method RebuildBitlists()
      requires Indexable(cache, devs, cfg)
      modifies this`cache, this`devs, this`strayFreeOffset
      ensures inerror && |old(cache)| > 0 ==>
                cache == old(cache) && devs == old(devs) && strayFreeOffset == old(strayFreeOffset)
      ensures !inerror || |old(cache)| == 0 ==>
                RepairState(cache, devs, strayFreeOffset)
                == Rebuilt(old(cache), old(devs), |old(cache)|, old(strayFreeOffset), cfg)
    {
      RebuiltNone(cache, devs, strayFreeOffset, cfg);
      var blocknr := 0;
      while blocknr < |cache|
        invariant |cache| == |old(cache)| && blocknr <= |cache|
        invariant RepairState(cache, devs, strayFreeOffset)
                  == Rebuilt(old(cache), old(devs), blocknr, old(strayFreeOffset), cfg)
        invariant inerror ==> blocknr == 0
      {
        if inerror {
          return;
        }
        RebuildStep(old(cache), old(devs), blocknr, old(strayFreeOffset), cfg);
        RepairEntry(blocknr);
        blocknr := blocknr + 1;
      }
    }

    /** `repair_bitlists`: every attached device's bitlist is wiped and its
        free cursor reset; then each map entry that names a device that is
        not attached, or a block that does not fit in its device, is
        cleared, and each other allocated entry's slot is marked. Stops
        before the first entry once a metadata write has failed. */
    method RepairBitlists()
      requires |cache| == |diskmap| && Shaped(devs, cfg) && InData(cache, devs, cfg)
      modifies this`cache, this`devs, this`strayFreeOffset
      ensures inerror && |old(cache)| > 0 ==>
                cache == old(cache) && devs == WipeAll(old(devs)) && strayFreeOffset == old(strayFreeOffset)
      ensures Indexable(old(cache), WipeAll(old(devs)), cfg)
      ensures !inerror || |old(cache)| == 0 ==>
                RepairState(cache, devs, strayFreeOffset) == Repaired(old(cache), old(devs), old(strayFreeOffset), cfg)
      ensures !inerror ==> Valid() && Consistent(cache, devs, cfg)
    {
      var d0, c0, s0 := devs, cache, strayFreeOffset;
      RepairConsistent(c0, d0, s0, cfg);
      WipeBitlists();
      RebuildBitlists();
    }

    /** `write_blocklist`: stamps `b` with the current time, then stores it
        in the in-memory map (unless WD) and on disk (unless WC). */
    method WriteBlocklist(blocknr: nat, b: BlockInfo, policy: WritePolicy, now: nat) returns (nb: BlockInfo)
      requires blocknr < |diskmap| && (policy != WD ==> blocknr < |cache|)
      modifies this`cache, this`diskmap
      ensures nb == b.(lastused := now)
      ensures cache == if policy == WD then old(cache) else old(cache)[blocknr := nb]
      ensures Durable() == if policy == WC then old(Durable()) else DiskWrite(old(Durable()), blocknr, nb)
    {
      nb := b.(lastused := now);
      if policy != WD {
        cache := cache[blocknr := nb];
      }
      if policy != WC {
        diskmap := diskmap[blocknr := CopyBlockInfo(nb)];
      }
    }

    /** `update_blocklist`: the delayed metadata write, see
        `Migration.Update`; nothing happens once the device is in error. */
    method UpdateBlocklist(blocknr: nat, now: nat)
      requires blocknr < |cache| == |diskmap|
      modifies this`cache, this`diskmap
      ensures inerror ==> cache == old(cache) && diskmap == old(diskmap)
      ensures !inerror ==> (cache, Durable()) == Update(old(cache), old(Durable()), blocknr, now)
    {
      if inerror {
        return;
      }
      var phy := diskmap[blocknr];
      if !SameBlockInfo(phy, cache[blocknr]) {
        // `binfo` is the map entry itself, so the stamp lands in the map.
        var nb := WriteBlocklist(blocknr, cache[blocknr], WD, now);
        cache := cache[blocknr := nb];
      }
    }

    /** `write_blocklist_journal`: the old device's header records the
        migration about to be committed. */
    method WriteBlocklistJournal(blocknr: nat, newb: BlockInfo, oldb: BlockInfo)
      requires 1 <= oldb.device <= |devs|
      modifies this`devs
      ensures Durable() == WriteJournal(old(Durable()), blocknr, newb, oldb)
    {
      var d := oldb.device - 1;
      var g := devs[d].magic.(journalOld := CopyBlockInfo(oldb), journalNew := CopyBlockInfo(newb),
                              blocknrJournal := blocknr);
      devs := devs[d := devs[d].(magic := g)];
    }

    /** `clean_blocklist_journal`: the header of device `d` is marked clean
        with an empty journal. */
    method CleanBlocklistJournal(d: nat)
      requires d < |devs|
      modifies this`devs
      ensures Durable() == CleanJournal(old(Durable()), d, cfg)
    {
      var g := devs[d].magic.(journalOld := ZeroPhysical, journalNew := ZeroPhysical,
                              clean := cfg.clean, blocknrJournal := 0);
      devs := devs[d := devs[d].(magic := g)];
    }

    /** `recover_journal` of device `d`. */
    method RecoverJournal(d: nat, now: nat)
      requires JournalValid(Durable(), d, cfg)
      modifies this`devs, this`diskmap
      ensures Durable() == Recover(old(Durable()), d, now, cfg)
    {
      var j := devs[d].magic;
      if j.journalOld.device == 0 {
        return;
      }
      var blocknr := j.blocknrJournal;
      var binfo := CopyPhysicalBlockInfo(j.journalOld);
      diskmap := diskmap[blocknr := CopyBlockInfo(binfo.(lastused := now))];
      if j.journalNew.device != 0 {
        binfo := CopyPhysicalBlockInfo(j.journalNew);
        ClearDevList(binfo);
      }
      CleanBlocklistJournal(d);
    }

    /** `reset_counters_on_migration`: the totals of the device `b` lived
        on lose its counts (u64 arithmetic) and its averages are
        recomputed. */
    method ResetCountersOnMigration(b: BlockInfo)
      requires 1 <= b.device <= |devs| && devs[b.device - 1].deviceSize >= cfg.blkSize
      modifies this`devs
      ensures devs == old(devs)[b.device - 1 := ResetCounters(old(devs[b.device - 1]), b, cfg)]
    {
      var d := b.device - 1;
      var bd := devs[d];
      var g := bd.magic.(totalReads := WrapU64(bd.magic.totalReads - b.readcount),
                         totalWrites := WrapU64(bd.magic.totalWrites - b.writecount));
      g := g.(averageWrites := Average(g.totalWrites, bd, cfg), averageReads := Average(g.totalReads, bd, cfg));
      devs := devs[d := bd.(magic := g)];
    }

    /** `copyblock`: moves the block `curblock`, now at `od`, to the tier
        `nd` names, as `Migration.Copy` describes; `moveOk` is the outcome of
        the data copy. `onEntry` says that `od` is the map entry itself
        rather than a saved copy, as `migrate_data_if_needed` passes it:
        then `Migration.CopyOnEntry` describes it. */
    method CopyBlock(nd: BlockInfo, od: BlockInfo, curblock: nat, now: nat, moveOk: bool, onEntry: bool)
      returns (res: int, nb: BlockInfo)
      requires Valid() && CopyArgs(cache, Durable(), nd, od, curblock)
      requires onEntry ==> od == cache[curblock]
      modifies this`devs, this`diskmap, this`cache
      ensures !onEntry ==>
                CopyResult(res, nb, cache, Durable()) == Copy(old(cache), old(Durable()), nd, od, curblock, now, moveOk, cfg)
      ensures onEntry ==>
                CopyResult(res, nb, cache, Durable()) == CopyOnEntry(old(cache), old(Durable()), nd, curblock, now, moveOk, cfg)
    {
      ghost var m0 := Durable();
      var t := nd.device - 1;
      nb := nd.(readcount := 0, writecount := 0, lastused := now);
      if nd.device == od.device {
        return -EEXIST, nb;
      }
      ghost var a := CopyAlloc(m0, nd, now, cfg);
      LayoutValidAt(devs, t, cfg);
      nb := AllocateDev(curblock, nb.(device := 0), t);
      if nb.device == 0 {
        assert devs == m0.devs;
        return -ENOSPC, nb;
      }
      if !moveOk {
        return -EIO, nb;
      }
      assert Durable() == m0.(devs := m0.devs[t := a.0]);
      WriteBlocklistJournal(curblock, nb, od);
      nb := WriteBlocklist(curblock, nb, WA, now);
      // `olddevice` as the driver reads it now: the map entry, when that
      // is what the caller passed, already holds the new entry
      var olddevice := if onEntry then cache[curblock] else od;
      CleanBlocklistJournal(olddevice.device - 1);
      res := 0;
    }

    /** What the movers do once `copyblock` succeeded
        (`reset_counters_on_migration`, then `clear_dev_list` of the entry
        `org`): see `Migration.FreeSource`. The discard that follows only
        talks to the block layer. */
    method ReleaseSource(org: BlockInfo)
      requires 1 <= org.device <= |devs| && SlotInRange(devs[org.device - 1], org.offset, cfg)
      requires devs[org.device - 1].deviceSize >= cfg.blkSize
      modifies this`devs
      ensures devs == FreeSource(old(devs), org, cfg)
    {
      ResetCountersOnMigration(org);
      ClearDevList(org);
    }

    /** The move shared by `migrate_up_ifneeded`, `migrate_down_ifneeded`
        and `do_migrate_direct`: see `Migration.Move`. */
    method MoveBlock(cur: nat, target: nat, now: nat, moveOk: bool) returns (res: int)
      requires Valid() && MoveArgs(cache, Durable(), cur, target, cfg)
      modifies this`devs, this`diskmap, this`cache
      ensures MoveResult(res, cache, Durable()) == Move(old(cache), old(Durable()), cur, target, now, moveOk, cfg)
    {
      var org := cache[cur];
      ghost var c0, m0 := cache, Durable();
      assert LocationValid(org.device, org.offset, Layout(devs), cfg);
      var nb;
      res, nb := CopyBlock(org.(device := target), org, cur, now, moveOk, false);
      if res == 0 {
        CopyKeepsShape(c0, m0, org.(device := target), org, cur, now, moveOk, cfg);
        SameLayoutAt(m0.devs, devs, org.device - 1);
        LayoutValidAt(devs, org.device - 1, cfg);
        ReleaseSource(org);
      } else {
        // copyblock failed: the entry gets its saved value back
        cache := cache[cur := org];
      }
    }

    /** `migrate_up_ifneeded` of block `cur`: see `Migration.MigrateUp`. */
    method MigrateUpIfNeeded(cur: nat, now: nat, moveOk: bool) returns (res: int)
      requires Valid() && cur < |cache|
      modifies this`devs, this`diskmap, this`cache
      ensures MoveResult(res, cache, Durable()) == MigrateUp(old(cache), old(Durable()), cur, now, moveOk, cfg)
    {
      var b := cache[cur];
      if b.device <= 1 {
        return 0;
      }
      assert LocationValid(b.device, b.offset, Layout(devs), cfg);
      var target := PromoteTo(b, devs);
      if target == b.device {
        return 0;
      }
      res := MoveBlock(cur, target, now, moveOk);
    }

    /** `migrate_down_ifneeded` of block `cur`: see `Migration.MigrateDown`. */
    method MigrateDownIfNeeded(cur: nat, now: nat, moveOk: bool) returns (res: int)
      requires Valid() && cur < |cache|
      modifies this`devs, this`diskmap, this`cache
      ensures MoveResult(res, cache, Durable()) == MigrateDown(old(cache), old(Durable()), cur, now, moveOk, cfg)
    {
      var b := cache[cur];
      if b.device == 0 {
        return 0;
      }
      assert LocationValid(b.device, b.offset, Layout(devs), cfg);
      var target := DemoteTo(b, devs, now);
      if target == b.device {
        return 0;
      }
      res := MoveBlock(cur, target, now, moveOk);
    }


    /** One block of `walk_blocklist`: see `Migration.Visit`. */
    method VisitBlock(cur: nat, now: nat, moveOk: bool)
      requires Valid() && cur < |cache| && !inerror
      modifies this`devs, this`diskmap, this`cache
      ensures (cache, Durable()) == Visit(old(cache), old(Durable()), cur, now, moveOk, cfg)
    {
      ghost var c0, m0 := cache, Durable();
      var b := cache[cur];
      if b.device == 0 {
        return;
      }
      assert LocationValid(b.device, b.offset, Layout(devs), cfg);
      var o := b.device - 1;
      LayoutValidAt(devs, o, cfg);
      RecomputeAveragesOf(o);
      HeaderWf(c0, m0, o, devs[o].magic, cfg);
      ghost var c1, m1 := cache, Durable();
      var res := MigrateDownIfNeeded(cur, now, moveOk);
      if res != 0 {
        return;
      }
      MigrateDownWf(c1, m1, cur, now, moveOk, cfg);
      ghost var c2, m2 := cache, Durable();
      res := MigrateUpIfNeeded(cur, now, moveOk);
      MigrateUpWf(c2, m2, cur, now, moveOk, cfg);
      DecayAndUpdate(cur, o, now);
    }

    /** The averages of device `o` are recomputed from its totals. */
    method RecomputeAveragesOf(o: nat)
      requires o < |devs| && devs[o].deviceSize >= cfg.blkSize
      modifies this`devs
      ensures devs == old(devs)[o := RecomputeAverages(old(devs[o]), cfg)]
    {
      var bd := devs[o];
      var g := bd.magic.(averageReads := Average(bd.magic.totalReads, bd, cfg),
                         averageWrites := Average(bd.magic.totalWrites, bd, cfg));
      devs := devs[o := bd.(magic := g)];
    }

    /** The end of a walk step: the counters of block `cur` that reached
        MAX_STAT_COUNT decay, on the totals of device `o`, and the entry is
        written out. */
    method DecayAndUpdate(cur: nat, o: nat, now: nat)
      requires cur < |cache| == |diskmap| && o < |devs| && !inerror
      modifies this`devs, this`diskmap, this`cache
      ensures var d := Decay(old(cache[cur]), old(devs[o].magic), cfg);
              (cache, Durable()) == Update(old(cache)[cur := d.0],
                                           old(Durable()).(devs := old(devs)[o := old(devs[o]).(magic := d.1)]), cur, now)
    {
      var e := cache[cur];
      var dm := devs[o].magic;
      if e.readcount >= cfg.maxStatCount {
        e := e.(readcount := e.readcount - cfg.maxStatDecay);
        dm := dm.(totalReads := WrapU64(dm.totalReads - cfg.maxStatDecay));
      }
      if e.writecount >= cfg.maxStatCount {
        e := e.(writecount := e.writecount - cfg.maxStatDecay);
        dm := dm.(totalWrites := WrapU64(dm.totalWrites - cfg.maxStatDecay));
      }
      cache := cache[cur := e];
      devs := devs[o := devs[o].(magic := dm)];
      UpdateBlocklist(cur, now);
    }

    /** A walk step as the walk needs it: the state is kept and the block
        moves at most one tier. */
    method VisitKept(cur: nat, now: nat, moveOk: bool)
      requires Valid() && cur < |cache| && !inerror
      modifies this`devs, this`diskmap, this`cache
      ensures Keeps(old(cache), old(Durable()), cache, Durable(), cur, cfg)
      ensures OneTier(old(cache[cur]).device, cache[cur].device)
    {
      ghost var c0, m0 := cache, Durable();
      VisitBlock(cur, now, moveOk);
      VisitKeeps(c0, m0, cur, now, moveOk, cfg);
    }

    /** The block loop of `walk_blocklist`: visits the blocks from
        `resumeBlockwalk` on until the end of the map, a stop, migration
        disabled in tier 1's policy, or an error, and sets the cursor to the
        first block in `busy` that it visited, where it stops. */
    method WalkFrom(now: nat, fails: set<nat>, busy: set<nat>) returns (interrupted: bool)
      requires Valid()
      modifies this`devs, this`diskmap, this`cache, this`resumeBlockwalk
      ensures KeepsAll(old(cache), old(Durable()), cache, Durable(), cfg)
      ensures forall j :: 0 <= j < |cache| && j < old(resumeBlockwalk) ==> cache[j] == old(cache[j])
      ensures inerror ==> cache == old(cache) && Durable() == old(Durable()) && !interrupted
      ensures !interrupted ==> resumeBlockwalk == old(resumeBlockwalk)
      ensures interrupted ==>
                && old(resumeBlockwalk) <= resumeBlockwalk < |cache| && resumeBlockwalk in busy
                && (forall j :: old(resumeBlockwalk) <= j < resumeBlockwalk ==> j !in busy)
                && (forall j :: resumeBlockwalk < j < |cache| ==> cache[j] == old(cache[j]))
      ensures (forall j :: old(resumeBlockwalk) <= j < |cache| ==> j !in busy) ==> !interrupted
    {
      ghost var c0, m0, r0 := cache, Durable(), resumeBlockwalk;
      KeepsAllRefl(c0, m0, cfg);
      interrupted := false;
      var curblock: nat := resumeBlockwalk;
      while curblock < |cache|
        invariant WalkedTo(c0, m0, cache, Durable(), r0, curblock, busy, cfg)
        invariant resumeBlockwalk == r0
        invariant inerror ==> cache == c0 && Durable() == m0
        decreases |cache| - curblock
      {
        if stop || devs[0].magic.policy.migrationDisabled || inerror {
          break;
        }
        ghost var c1, m1 := cache, Durable();
        VisitKept(curblock, now, curblock !in fails);
        WalkedStep(c0, m0, c1, m1, cache, Durable(), r0, curblock, busy, cfg);
        if curblock in busy {
          resumeBlockwalk := curblock;
          interrupted := true;
          break;
        }
        curblock := curblock + 1;
      }
    }

    /** `walk_blocklist`: the block loop (`WalkFrom`), then the cursor reset
        after a full pass and the timer. `fails` are the blocks whose data
        copies fail and `busy` those after whose visit normal I/O is
        pending, which interrupts the walk there. Returns the delay of the
        re-armed timer in milliseconds, if it is re-armed. */
    method WalkBlocklist(now: nat, fails: set<nat>, busy: set<nat>) returns (interrupted: bool, timer: Option<nat>)
      requires Valid()
      modifies this`devs, this`diskmap, this`cache, this`resumeBlockwalk
      ensures KeepsAll(old(cache), old(Durable()), cache, Durable(), cfg)
      ensures forall j :: 0 <= j < |cache| && j < old(resumeBlockwalk) ==> cache[j] == old(cache[j])
      ensures inerror ==> cache == old(cache) && Durable() == old(Durable()) && timer.None?
                          && resumeBlockwalk == old(resumeBlockwalk)
      ensures !inerror && interrupted ==>
                && old(resumeBlockwalk) <= resumeBlockwalk < |cache| && resumeBlockwalk in busy
                && (timer.Some? ==> timer.value == 3000)
                && (forall j :: old(resumeBlockwalk) <= j < resumeBlockwalk ==> j !in busy)
                && (forall j :: resumeBlockwalk < j < |cache| ==> cache[j] == old(cache[j]))
      ensures !inerror && !interrupted ==>
                && resumeBlockwalk == 0
                && (timer.Some? ==> timer.value == devs[0].magic.policy.migrationInterval * 1000)
      ensures !inerror ==> (timer.Some? <==> !stop && !devs[0].magic.policy.migrationDisabled)
      ensures (forall j :: old(resumeBlockwalk) <= j < |cache| ==> j !in busy) ==> !interrupted
    {
      interrupted := WalkFrom(now, fails, busy);
      if inerror {
        return false, None;
      }
      var delay := 3000;
      if !interrupted {
        resumeBlockwalk := 0;
        delay := devs[0].magic.policy.migrationInterval * 1000;
      }
      timer := if !stop && !devs[0].magic.policy.migrationDisabled then Some(delay) else None;
    }

    /** `migrate_direct`: a request to move block `blocknr` to the 0-based
        tier `device` is refused with -EAGAIN while normal I/O is pending
        (`normalIo`) or another request is; otherwise it is recorded for the
        migrator. */
    method MigrateDirect(blocknr: nat, device: nat, normalIo: bool) returns (res: int)
      modifies this`direct, this`directBlocknr, this`directNewdevice
      ensures normalIo || old(direct) ==>
                res == -EAGAIN && direct == old(direct)
                && directBlocknr == old(directBlocknr) && directNewdevice == old(directNewdevice)
      ensures !normalIo && !old(direct) ==>
                res == 0 && direct && directBlocknr == blocknr && directNewdevice == device
    {
      if normalIo {
        return -EAGAIN;
      }
      if direct {
        return -EAGAIN;
      }
      direct := true;
      directBlocknr := blocknr;
      directNewdevice := device;
      res := 0;
    }

    /** `do_migrate_direct` of the recorded request: see
        `Migration.MigrateDirectly`. */
    method DoMigrateDirect(now: nat, moveOk: bool)
      requires Valid() && directNewdevice < |devs|
      modifies this`devs, this`diskmap, this`cache
      ensures (cache, Durable()) == MigrateDirectly(old(cache), old(Durable()), directBlocknr, directNewdevice,
                                                    now, moveOk, cfg)
    {
      ghost var c0, m0 := cache, Durable();
      DisableMigrationOf();
      DisableKeeps(c0, m0, cfg);
      MoveDirect(now, moveOk);
    }

    /** The recorded request once migration is disabled: see
        `Migration.DirectMove`. */
    method MoveDirect(now: nat, moveOk: bool)
      requires Valid() && directNewdevice < |devs|
      modifies this`devs, this`diskmap, this`cache
      ensures (cache, Durable()) == DirectMove(old(cache), old(Durable()), directBlocknr, directNewdevice,
                                               now, moveOk, cfg)
    {
      if directBlocknr >= |cache| {
        return;
      }
      var b := cache[directBlocknr];
      if b.device == 0 {
        return;
      }
      if b.device - 1 == directNewdevice {
        // refused with -EEXIST: the block is already there
        return;
      }
      ghost var c0, m0 := cache, Durable();
      var res := MoveBlock(directBlocknr, directNewdevice + 1, now, moveOk);
      ghost var r := Move(c0, m0, directBlocknr, directNewdevice + 1, now, moveOk, cfg);
      assert DirectMove(c0, m0, directBlocknr, directNewdevice, now, moveOk, cfg) == (r.cache, r.meta);
      assert cache == r.cache && Durable() == r.meta;
    }

    /** `do_migrate_direct` switches off the periodic migration in the
        policy of tier 1. */
    method DisableMigrationOf()
      requires |devs| >= 1
      modifies this`devs
      ensures Durable() == DisableMigration(old(Durable()))
    {
      var g := devs[0].magic;
      if !g.policy.migrationDisabled {
        devs := devs[0 := devs[0].(magic := g.(policy := g.policy.(migrationDisabled := true)))];
      }
    }

    /** One wake-up of `data_migrator`: it ends on `stop`; a recorded direct
        request is carried out and cleared; pending normal I/O re-arms the
        timer for 300 ms unless stopped or disabled; otherwise the block
        map is walked. Returns the delay of the re-armed timer, if any. */
    method DataMigratorStep(now: nat, moveOk: bool, normalIo: bool, fails: set<nat>, busy: set<nat>)
      returns (timer: Option<nat>)
      requires Valid() && (direct ==> directNewdevice < |devs|)
      modifies this`devs, this`diskmap, this`cache, this`resumeBlockwalk, this`direct
      ensures Valid()
      ensures stop ==> cache == old(cache) && Durable() == old(Durable()) && timer.None? && direct == old(direct)
      ensures !stop && old(direct) ==>
                && (cache, Durable()) == MigrateDirectly(old(cache), old(Durable()), directBlocknr, directNewdevice,
                                                         now, moveOk, cfg)
                && !direct && timer.None?
      ensures !stop && !old(direct) && normalIo ==>
                && cache == old(cache) && Durable() == old(Durable())
                && timer == if !devs[0].magic.policy.migrationDisabled then Some(300) else None
      ensures !stop && !old(direct) && !normalIo ==> KeepsAll(old(cache), old(Durable()), cache, Durable(), cfg)
    {
      if stop {
        return None;
      }
      if direct {
        ghost var c0, m0 := cache, Durable();
        DoMigrateDirect(now, moveOk);
        MigrateDirectlyKeeps(c0, m0, directBlocknr, directNewdevice, now, moveOk, cfg);
        direct := false;
        return None;
      }
      if normalIo {
        return if !devs[0].magic.policy.migrationDisabled then Some(300) else None;
      }
      var interrupted;
      interrupted, timer := WalkBlocklist(now, fails, busy);
    }

    /** One block of `migrate_data_if_needed` that is on tier 1 in the
        range: see `Migration.EvacuateOne`; 0 means the copy completed. */
    method EvacuateBlock(k: nat, changed: nat, now: nat, moveOk: bool) returns (cbres: int)
      requires Valid() && k < |cache| && changed < |devs| && cache[k].device == 1
      modifies this`devs, this`diskmap, this`cache
      ensures MoveResult(if cbres == 0 then -1 else cbres, cache, Durable()) ==
              EvacuateOne(old(cache), old(Durable()), k, changed, now, moveOk, cfg)
      ensures cbres == 0 || cbres == -EEXIST || cbres == -ENOSPC || cbres == -EIO
    {
      ghost var c0, m0 := cache, Durable();
      var b := cache[k];
      var nb;
      cbres, nb := CopyBlock(b.(device := changed + 1), b, k, now, moveOk, true);
      if cbres == 0 {
        EvacuateFrees(c0, m0, k, changed, now, moveOk, cfg);
        // the driver's reference to the entry now shows the new entry
        var moved := cache[k];
        ReleaseSource(moved);
        nb := WriteBlocklist(k, nb, WC, now);
      }
      EvacuateOneFacts(c0, m0, k, changed, now, moveOk, cfg);
    }

    /** One iteration of `migrate_data_if_needed` at block `k`: see
        `Migration.EvacuateAt`. */
    method EvacuateStep(k: nat, start: nat, size: nat, changed: nat, now: nat, fails: set<nat>)
      returns (res: int, done: bool)
      requires Valid() && k < |cache| && changed < |devs|
      modifies this`devs, this`diskmap, this`cache
      ensures var st := EvacuateAt(old(cache), old(Durable()), k, start, size, changed, now, fails, inerror, cfg);
              if done then st == Stop(MoveResult(res, cache, Durable()))
              else st == Next(cache, Durable())
    {
      res, done := 0, false;
      if inerror {
        res, done := -EIO, true;
        return;
      }
      var b := cache[k];
      if b.device != 1 || !(start <= b.offset <= start + size) {
        return;
      }
      var cbres := EvacuateBlock(k, changed, now, k !in fails);
      if cbres == 0 {
        res, done := -1, true;
      } else {
        res := cbres;
      }
    }

    /** `migrate_data_if_needed` on a resize of tier `changed`: see
        `Migration.Evacuate`. */
    method MigrateDataIfNeeded(start: nat, size: nat, changed: nat, now: nat, fails: set<nat>) returns (res: int)
      requires Valid() && changed < |devs|
      modifies this`devs, this`diskmap, this`cache
      ensures MoveResult(res, cache, Durable()) ==
              Evacuate(old(cache), old(Durable()), 0, start, size, changed, now, fails, inerror, cfg)
    {
      ghost var c0, m0 := cache, Durable();
      res := 0;
      var curblock := 0;
      while curblock < |cache|
        invariant Valid() && curblock <= |cache| && changed < |devs| && inerror == old(inerror)
        invariant Evacuate(c0, m0, 0, start, size, changed, now, fails, inerror, cfg) ==
                  Evacuate(cache, Durable(), curblock, start, size, changed, now, fails, inerror, cfg)
        invariant res == 0
        decreases |cache| - curblock
      {
        EvacuateSteps(cache, Durable(), curblock, start, size, changed, now, fails, inerror, cfg);
        var done;
        res, done := EvacuateStep(curblock, start, size, changed, now, fails);
        if done {
          return;
        }
        res := 0;
        curblock := curblock + 1;
      }
    }
  }

  /** A page-aligned index below a page-multiple bound leaves room for the
      whole page, and the next page starts right after it. */
  lemma PageFits(cur: nat, p: pos, n: nat)
    requires cur * p < n && n % p == 0
    ensures cur * p + p <= n && (cur + 1) * p == cur * p + p
  {
    var q := n / p;
    assert n == q * p;
    if cur + 1 > q {
      MulMono(q, cur, p);
    }
    MulMono(cur + 1, q, p);
  }

  /** The data-relative offset of byte `bc` of the page starting at bitlist
      index `page`, and back. */
  lemma SlotOffset(page: nat, bc: nat, blk: pos)
    ensures page * blk + bc * blk == (page + bc) * blk
    ensures (page * blk + bc * blk) / blk == page + bc
  {
    MulDivCancel(page + bc, blk);
  }

  /** Counting one more byte of a prefix. */
  lemma CountPrefixStep(bits: seq<byte>, m: nat, blk: nat)
    requires m < |bits|
    ensures CountAllocated(bits[..m + 1]) * blk ==
            CountAllocated(bits[..m]) * blk + (if bits[m] == Allocated then blk else 0)
  {
    assert bits[..m + 1][..m] == bits[..m];
  }
}
