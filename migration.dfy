/**
  The migration engine on values: what `copyblock` and the movers around
  it (`migrate_up_ifneeded`, `migrate_down_ifneeded`, `do_migrate_direct`,
  one step of `walk_blocklist`, `migrate_data_if_needed`) do to the
  in-memory block map and to the durable state, and the lemmas saying
  what each of them keeps. The methods of `Engine.TierDevice` are proved
  against these functions.
 */
module Migration {
  import opened BtierTypes
  import opened BlockRecords
  import opened Bitlist
  import opened Journal
  import opened Policy
  import opened Placement

  /** What `copyblock` leaves: its return code, the new entry as the
      caller's `newdevice` record holds it, the in-memory map and the
      durable state. */
  datatype CopyResult = CopyResult(res: int, nb: BlockInfo, cache: seq<BlockInfo>, meta: Meta)

  /** What a mover leaves: its return code, the in-memory map and the
      durable state. */
  datatype MoveResult = MoveResult(res: int, cache: seq<BlockInfo>, meta: Meta)

  /** The arguments `copyblock` can be called with: the block exists in
      both maps and both entries name attached tiers. */
  predicate CopyArgs(cache: seq<BlockInfo>, m: Meta, nd: BlockInfo, od: BlockInfo, curblock: nat) {
    && curblock < |cache| && curblock < |m.diskmap|
    && 1 <= nd.device <= |m.devs| && 1 <= od.device <= |m.devs|
  }

  /** The maps line up, the devices are well formed and every entry is
      unallocated or names a slot of an attached device. */
  predicate Wf(cache: seq<BlockInfo>, m: Meta, cfg: Config) {
    |cache| == |m.diskmap| && Shaped(m.devs, cfg) && MapOk(cache, Layout(m.devs), cfg)
  }

  /** The entry `copyblock` moves: its counters are zeroed and it is
      stamped before anything else, even when the move is then refused. */
  function Fresh(nd: BlockInfo, now: nat): BlockInfo {
    nd.(readcount := 0, writecount := 0, lastused := now)
  }

  /** The allocation `copyblock` asks of the target device. */
  function CopyAlloc(m: Meta, nd: BlockInfo, now: nat, cfg: Config): (BackingDevice, BlockInfo)
    requires 1 <= nd.device <= |m.devs|
  {
    AllocateSpec(m.devs[nd.device - 1], Fresh(nd, now).(device := 0), nd.device - 1, cfg)
  }

  /** `copyblock` of block `curblock` from `od` to the tier `nd` names at
      time `now`; `moveOk` is the outcome of the data copy. A move to the
      same tier is refused, a full target is reported, a failed copy keeps
      the slot it took; a completed one installs the allocation, journals,
      commits the entry to both maps and cleans the journal. */
  function Copy(cache: seq<BlockInfo>, m: Meta, nd: BlockInfo, od: BlockInfo, curblock: nat, now: nat,
                moveOk: bool, cfg: Config): CopyResult
    requires CopyArgs(cache, m, nd, od, curblock)
  {
    if nd.device == od.device then CopyResult(-EEXIST, Fresh(nd, now), cache, m)
    else
      var a := CopyAlloc(m, nd, now, cfg);
      if a.1.device == 0 then CopyResult(-ENOSPC, a.1, cache, m)
      else if !moveOk then CopyResult(-EIO, a.1, cache, m.(devs := m.devs[nd.device - 1 := a.0]))
      else CopyResult(0, a.1, cache[curblock := a.1], CommitMeta(m, curblock, a.1, od, a.0, cfg))
  }

  /** The return codes of `copyblock` and when each one comes. The refusal
      of a same-tier move happens after the counters were zeroed; nothing
      but a completed copy touches the maps, and only a failed data copy
      changes the devices without committing. */
  lemma CopyOutcome(cache: seq<BlockInfo>, m: Meta, nd: BlockInfo, od: BlockInfo, curblock: nat, now: nat,
                    moveOk: bool, cfg: Config)
    requires CopyArgs(cache, m, nd, od, curblock)
    ensures var r := Copy(cache, m, nd, od, curblock, now, moveOk, cfg);
            var a := CopyAlloc(m, nd, now, cfg);
            && (r.res == 0 || r.res == -EEXIST || r.res == -ENOSPC || r.res == -EIO)
            && (r.res == -EEXIST <==> nd.device == od.device)
            && (r.res == -EEXIST ==> r.nb == nd.(readcount := 0, writecount := 0, lastused := now))
            && (r.res == -ENOSPC <==> nd.device != od.device && a.1.device == 0)
            && (r.res == -EIO <==> nd.device != od.device && a.1.device != 0 && !moveOk)
            && (r.res == 0 <==> nd.device != od.device && a.1.device != 0 && moveOk)
            && (r.res != -EEXIST ==> r.nb == a.1)
            && (r.res != 0 ==> r.cache == cache && r.meta.diskmap == m.diskmap)
            && (r.res == -EEXIST || r.res == -ENOSPC ==> r.meta == m)
            && (r.res == -EIO ==> r.meta.devs == m.devs[nd.device - 1 := a.0])
  {
  }

  /** `copyblock` keeps the geometry, the alignment of the maps, the
      validity of every entry and every data policy. */
  lemma CopyKeepsShape(cache: seq<BlockInfo>, m: Meta, nd: BlockInfo, od: BlockInfo, curblock: nat, now: nat,
                       moveOk: bool, cfg: Config)
    requires CopyArgs(cache, m, nd, od, curblock) && Wf(cache, m, cfg)
    ensures var r := Copy(cache, m, nd, od, curblock, now, moveOk, cfg);
            && Wf(r.cache, r.meta, cfg) && SameLayout(m.devs, r.meta.devs)
            && |r.cache| == |cache| && |r.meta.devs| == |m.devs|
            && forall e :: 0 <= e < |m.devs| ==> r.meta.devs[e].magic.policy == m.devs[e].magic.policy
  {
    if nd.device != od.device {
      var t := nd.device - 1;
      var a := CopyAlloc(m, nd, now, cfg);
      LayoutUpdate(m.devs, t, a.0);
      if a.1.device != 0 {
        assert Layout(m.devs)[t] == Geo(m.devs[t]);
        MapOkStore(cache, Layout(m.devs), curblock, a.1, cfg);
      }
    }
  }

  /** A completed `copyblock`: the new entry is on the target tier with
      zeroed counters and stamped, it took a slot that was free there and
      lies inside the data region, no other bitlist changed, the block's
      on-disk record is the new entry, no other record changed and the
      source device's journal is clear again. */
  lemma CopyCommits(cache: seq<BlockInfo>, m: Meta, nd: BlockInfo, od: BlockInfo, curblock: nat, now: nat,
                    moveOk: bool, cfg: Config)
    requires CopyArgs(cache, m, nd, od, curblock)
    requires Copy(cache, m, nd, od, curblock, now, moveOk, cfg).res == 0
    ensures var r := Copy(cache, m, nd, od, curblock, now, moveOk, cfg);
            var t := nd.device - 1;
            && r.nb == CopyAlloc(m, nd, now, cfg).1
            && r.nb == nd.(readcount := 0, writecount := 0, lastused := now, offset := r.nb.offset)
            && r.nb.offset + cfg.blkSize <= m.devs[t].endOfData
            && r.cache == cache[curblock := r.nb]
            && MarkedAt(m.devs, r.meta.devs, t, r.nb.offset, cfg)
            && OtherBitlistsKept(m.devs, r.meta.devs, t, t)
            && SameBlockInfo(r.meta.diskmap[curblock], r.nb)
            && (forall k :: 0 <= k < |m.diskmap| && k != curblock ==> r.meta.diskmap[k] == m.diskmap[k])
            && JournalClear(r.meta, od.device - 1)
  {
  }

  /** A failed `copyblock` at most leaks the slot it took: every ALLOCATED
      byte stays ALLOCATED and the geometry stays. */
  lemma CopyFailureLeaksAtMost(cache: seq<BlockInfo>, m: Meta, nd: BlockInfo, od: BlockInfo, curblock: nat,
                               now: nat, moveOk: bool, cfg: Config)
    requires CopyArgs(cache, m, nd, od, curblock)
    requires Copy(cache, m, nd, od, curblock, now, moveOk, cfg).res != 0
    ensures var r := Copy(cache, m, nd, od, curblock, now, moveOk, cfg);
            KeepsAllocated(m.devs, r.meta.devs) && SameLayout(m.devs, r.meta.devs)
  {
    var r := Copy(cache, m, nd, od, curblock, now, moveOk, cfg);
    var t := nd.device - 1;
    var a := CopyAlloc(m, nd, now, cfg);
    LayoutUpdate(m.devs, t, a.0);
    if r.res == -EIO {
      var i := SlotIndex(m.devs[t], a.1.offset, cfg);
      assert a.0.bitlist == m.devs[t].bitlist[i := Allocated];
    }
  }

  /** What the movers do once `copyblock` succeeded
      (`reset_counters_on_migration` and `clear_dev_list` of the entry as it
      was before the move): the counters of the tier `org` left are reset
      and its old slot is freed there. */
  function FreeSource(devs: seq<BackingDevice>, org: BlockInfo, cfg: Config): seq<BackingDevice>
    requires 1 <= org.device <= |devs| && SlotInRange(devs[org.device - 1], org.offset, cfg)
    requires devs[org.device - 1].deviceSize >= cfg.blkSize
  {
    var o := org.device - 1;
    devs[o := ClearSlot(ResetCounters(devs[o], org, cfg), org.offset, cfg)]
  }

  /** Freeing the source clears exactly the old slot, resets the counters
      of that device only and keeps the geometry and every policy. */
  lemma FreeSourceFacts(devs: seq<BackingDevice>, org: BlockInfo, cfg: Config)
    requires 1 <= org.device <= |devs| && SlotInRange(devs[org.device - 1], org.offset, cfg)
    requires devs[org.device - 1].deviceSize >= cfg.blkSize
    ensures var r := FreeSource(devs, org, cfg);
            var o := org.device - 1;
            && SameLayout(devs, r) && ClearedAt(devs, r, o, org.offset, cfg)
            && r[o].magic == ResetCounters(devs[o], org, cfg).magic
            && (forall e :: 0 <= e < |devs| && e != o ==> r[e] == devs[e])
            && (forall e :: 0 <= e < |devs| ==> r[e].magic.policy == devs[e].magic.policy)
  {
    var o := org.device - 1;
    LayoutUpdate(devs, o, ClearSlot(ResetCounters(devs[o], org, cfg), org.offset, cfg));
  }

  /** The arguments the movers call `copyblock` with: a well-formed state,
      an allocated entry `cur` and an attached target tier. */
  predicate MoveArgs(cache: seq<BlockInfo>, m: Meta, cur: nat, target: nat, cfg: Config) {
    Wf(cache, m, cfg) && cur < |cache| && 1 <= cache[cur].device && 1 <= target <= |m.devs|
  }

  /** The move the movers share: entry `cur` is copied to tier `target`;
      on success the tier it left gets its counters reset and its old slot
      freed, on failure the entry keeps its value from before the call
      (the driver's `memcpy` back from its saved copy). */
  function Move(cache: seq<BlockInfo>, m: Meta, cur: nat, target: nat, now: nat, moveOk: bool,
                cfg: Config): MoveResult
    requires MoveArgs(cache, m, cur, target, cfg)
  {
    var org := cache[cur];
    assert LocationValid(org.device, org.offset, Layout(m.devs), cfg);
    var c := Copy(cache, m, org.(device := target), org, cur, now, moveOk, cfg);
    if c.res != 0 then MoveResult(c.res, cache, c.meta)
    else
      CopyLayout(cache, m, org.(device := target), org, cur, now, moveOk, cfg);
      SameLayoutAt(m.devs, c.meta.devs, org.device - 1);
      LayoutValidAt(c.meta.devs, org.device - 1, cfg);
      MoveResult(0, c.cache, c.meta.(devs := FreeSource(c.meta.devs, org, cfg)))
  }

  /** A copy keeps the geometry. */
  lemma CopyLayout(cache: seq<BlockInfo>, m: Meta, nd: BlockInfo, od: BlockInfo, curblock: nat, now: nat,
                   moveOk: bool, cfg: Config)
    requires CopyArgs(cache, m, nd, od, curblock) && Wf(cache, m, cfg)
    ensures var r := Copy(cache, m, nd, od, curblock, now, moveOk, cfg);
            SameLayout(m.devs, r.meta.devs) && |r.meta.devs| == |m.devs|
  {
    CopyKeepsShape(cache, m, nd, od, curblock, now, moveOk, cfg);
  }

  /** A move keeps the state well formed, the geometry and every policy. */
  lemma MoveKeepsShape(cache: seq<BlockInfo>, m: Meta, cur: nat, target: nat, now: nat, moveOk: bool,
                       cfg: Config)
    requires MoveArgs(cache, m, cur, target, cfg)
    ensures var r := Move(cache, m, cur, target, now, moveOk, cfg);
            && Wf(r.cache, r.meta, cfg) && SameLayout(m.devs, r.meta.devs) && |r.cache| == |cache|
            && forall e :: 0 <= e < |m.devs| ==> r.meta.devs[e].magic.policy == m.devs[e].magic.policy
  {
    var org := cache[cur];
    assert LocationValid(org.device, org.offset, Layout(m.devs), cfg);
    var nd := org.(device := target);
    var c := Copy(cache, m, nd, org, cur, now, moveOk, cfg);
    CopyKeepsShape(cache, m, nd, org, cur, now, moveOk, cfg);
    if c.res == 0 {
      SameLayoutAt(m.devs, c.meta.devs, org.device - 1);
      LayoutValidAt(c.meta.devs, org.device - 1, cfg);
      FreeSourceFacts(c.meta.devs, org, cfg);
    }
  }

  /** The return codes of a move: it is refused exactly when the target
      is the entry's own tier, and succeeds exactly when the target
      differs, has room and the data copy works; otherwise neither map
      changed. */
  lemma MoveOutcome(cache: seq<BlockInfo>, m: Meta, cur: nat, target: nat, now: nat, moveOk: bool,
                    cfg: Config)
    requires MoveArgs(cache, m, cur, target, cfg)
    ensures var r := Move(cache, m, cur, target, now, moveOk, cfg);
            var org := cache[cur];
            var a := CopyAlloc(m, org.(device := target), now, cfg);
            && (r.res == 0 || r.res == -EEXIST || r.res == -ENOSPC || r.res == -EIO)
            && (r.res == -EEXIST <==> target == org.device)
            && (r.res == 0 <==> target != org.device && a.1.device != 0 && moveOk)
            && (r.res != 0 ==> r.cache == cache && r.meta.diskmap == m.diskmap)
  {
    var org := cache[cur];
    assert LocationValid(org.device, org.offset, Layout(m.devs), cfg);
    CopyOutcome(cache, m, org.(device := target), org, cur, now, moveOk, cfg);
  }

  /** A completed move: the entry is the allocation's result, on tier
      `target` with zeroed counters and stamped, both maps agree on it, no
      other record changed and the source journal is clear. */
  lemma MoveCommits(cache: seq<BlockInfo>, m: Meta, cur: nat, target: nat, now: nat, moveOk: bool,
                    cfg: Config)
    requires MoveArgs(cache, m, cur, target, cfg)
    requires Move(cache, m, cur, target, now, moveOk, cfg).res == 0
    ensures var r := Move(cache, m, cur, target, now, moveOk, cfg);
            var org := cache[cur];
            var a := CopyAlloc(m, org.(device := target), now, cfg);
            && r.cache == cache[cur := a.1]
            && a.1 == org.(device := target, offset := a.1.offset, readcount := 0, writecount := 0, lastused := now)
            && SameBlockInfo(r.meta.diskmap[cur], r.cache[cur])
            && (forall k :: 0 <= k < |m.diskmap| && k != cur ==> r.meta.diskmap[k] == m.diskmap[k])
            && JournalClear(r.meta, org.device - 1)
  {
    var org := cache[cur];
    assert LocationValid(org.device, org.offset, Layout(m.devs), cfg);
    var nd := org.(device := target);
    var c := Copy(cache, m, nd, org, cur, now, moveOk, cfg);
    CopyCommits(cache, m, nd, org, cur, now, moveOk, cfg);
    CopyKeepsShape(cache, m, nd, org, cur, now, moveOk, cfg);
    SameLayoutAt(m.devs, c.meta.devs, org.device - 1);
    LayoutValidAt(c.meta.devs, org.device - 1, cfg);
    FreeSourceFacts(c.meta.devs, org, cfg);
  }

  /** A completed move is a move in the sense of the placement lemmas:
      the target slot was free and is marked, the old slot is freed and no
      other bitlist changes. */
  lemma MoveIsMoveOk(cache: seq<BlockInfo>, m: Meta, cur: nat, target: nat, now: nat, moveOk: bool,
                     cfg: Config)
    requires MoveArgs(cache, m, cur, target, cfg)
    requires Move(cache, m, cur, target, now, moveOk, cfg).res == 0
    ensures var r := Move(cache, m, cur, target, now, moveOk, cfg);
            && r.cache == cache[cur := r.cache[cur]]
            && MoveOk(cache, m.devs, r.meta.devs, cur, r.cache[cur], cfg)
  {
    var org := cache[cur];
    assert LocationValid(org.device, org.offset, Layout(m.devs), cfg);
    var nd := org.(device := target);
    var c := Copy(cache, m, nd, org, cur, now, moveOk, cfg);
    CopyKeepsShape(cache, m, nd, org, cur, now, moveOk, cfg);
    CopyOutcome(cache, m, nd, org, cur, now, moveOk, cfg);
    CopyCommits(cache, m, nd, org, cur, now, moveOk, cfg);
    SameLayoutAt(m.devs, c.meta.devs, org.device - 1);
    LayoutValidAt(c.meta.devs, org.device - 1, cfg);
    MarkThenFree(cache, m.devs, c.meta.devs, cur, c.nb, cfg);
  }

  /** Marking a free slot on tier `nb.device` and then freeing the source
      of entry `cur` on another tier is a move in the sense of `MoveOk`. */
  lemma MarkThenFree(c0: seq<BlockInfo>, d0: seq<BackingDevice>, d1: seq<BackingDevice>, cur: nat,
                     nb: BlockInfo, cfg: Config)
    requires cur < |c0| && 1 <= c0[cur].device <= |d0| && SameLayout(d0, d1)
    requires 1 <= nb.device <= |d0| && nb.device != c0[cur].device
    requires MarkedAt(d0, d1, nb.device - 1, nb.offset, cfg) && OtherBitlistsKept(d0, d1, nb.device - 1, nb.device - 1)
    requires SlotInRange(d1[c0[cur].device - 1], c0[cur].offset, cfg)
    requires d1[c0[cur].device - 1].deviceSize >= cfg.blkSize
    ensures MoveOk(c0, d0, FreeSource(d1, c0[cur], cfg), cur, nb, cfg)
  {
    var org := c0[cur];
    var t, o := nb.device - 1, org.device - 1;
    var d2 := FreeSource(d1, org, cfg);
    FreeSourceFacts(d1, org, cfg);
    SameLayoutAt(d0, d1, o);
    assert d2[t] == d1[t];
    assert d1[o].bitlist == d0[o].bitlist;
    assert SlotIndex(d1[o], org.offset, cfg) == SlotIndex(d0[o], org.offset, cfg);
  }

  /** A failed move changes neither map and at most leaks a slot. */
  lemma MoveFailureLeaksAtMost(cache: seq<BlockInfo>, m: Meta, cur: nat, target: nat, now: nat, moveOk: bool,
                               cfg: Config)
    requires MoveArgs(cache, m, cur, target, cfg)
    requires Move(cache, m, cur, target, now, moveOk, cfg).res != 0
    ensures var r := Move(cache, m, cur, target, now, moveOk, cfg);
            r.cache == cache && SameLayout(m.devs, r.meta.devs) && KeepsAllocated(m.devs, r.meta.devs)
  {
    var org := cache[cur];
    assert LocationValid(org.device, org.offset, Layout(m.devs), cfg);
    CopyFailureLeaksAtMost(cache, m, org.(device := target), org, cur, now, moveOk, cfg);
  }

  /** A move keeps the placement invariant: a completed one takes a free
      slot and frees the old one, a failed one at most leaks a slot. */
  lemma MovePreservesPlacement(cache: seq<BlockInfo>, m: Meta, cur: nat, target: nat, now: nat, moveOk: bool,
                               cfg: Config)
    requires MoveArgs(cache, m, cur, target, cfg) && Placed(cache, m.devs, cfg)
    ensures var r := Move(cache, m, cur, target, now, moveOk, cfg);
            Placed(r.cache, r.meta.devs, cfg)
  {
    var r := Move(cache, m, cur, target, now, moveOk, cfg);
    if r.res == 0 {
      MoveIsMoveOk(cache, m, cur, target, now, moveOk, cfg);
      MoveKeepsPlaced(cache, m.devs, r.meta.devs, cur, r.cache[cur], cfg);
    } else {
      MoveFailureLeaksAtMost(cache, m, cur, target, now, moveOk, cfg);
      PlacedKeepsUnderMarking(cache, m.devs, cache, r.meta.devs, cfg);
    }
  }

  /** What every step of the engine keeps, from (`c0`, `m0`) to (`c1`,
      `m1`): a well-formed state, the geometry, every data policy, the
      placement invariant, and every entry but `cur`. */
  predicate Keeps(c0: seq<BlockInfo>, m0: Meta, c1: seq<BlockInfo>, m1: Meta, cur: nat, cfg: Config) {
    && Wf(c1, m1, cfg) && SameLayout(m0.devs, m1.devs) && |c1| == |c0| && |m1.devs| == |m0.devs|
    && (forall e :: 0 <= e < |m0.devs| ==> m1.devs[e].magic.policy == m0.devs[e].magic.policy)
    && (Placed(c0, m0.devs, cfg) ==> Placed(c1, m1.devs, cfg))
    && (forall k :: 0 <= k < |c0| && k != cur ==> c1[k] == c0[k])
  }

  lemma KeepsTrans(c0: seq<BlockInfo>, m0: Meta, c1: seq<BlockInfo>, m1: Meta, c2: seq<BlockInfo>, m2: Meta,
                   cur: nat, cfg: Config)
    requires Keeps(c0, m0, c1, m1, cur, cfg) && Keeps(c1, m1, c2, m2, cur, cfg)
    ensures Keeps(c0, m0, c2, m2, cur, cfg)
  {
  }

  /** A move keeps everything `Keeps` names, and the entry either keeps its
      value or, after a completed move, sits on the target tier. */
  lemma MoveKeeps(cache: seq<BlockInfo>, m: Meta, cur: nat, target: nat, now: nat, moveOk: bool, cfg: Config)
    requires MoveArgs(cache, m, cur, target, cfg)
    ensures var r := Move(cache, m, cur, target, now, moveOk, cfg);
            && Keeps(cache, m, r.cache, r.meta, cur, cfg)
            && (r.cache[cur] == cache[cur] || (r.res == 0 && r.cache[cur].device == target))
  {
    var r := Move(cache, m, cur, target, now, moveOk, cfg);
    MoveKeepsShape(cache, m, cur, target, now, moveOk, cfg);
    MoveOutcome(cache, m, cur, target, now, moveOk, cfg);
    if Placed(cache, m.devs, cfg) {
      MovePreservesPlacement(cache, m, cur, target, now, moveOk, cfg);
    }
    if r.res == 0 {
      MoveCommits(cache, m, cur, target, now, moveOk, cfg);
    }
  }

  /** A move changes the entry's tier exactly when the target is another
      tier, the target had room and the data copy went through. */
  lemma MoveWhen(cache: seq<BlockInfo>, m: Meta, cur: nat, target: nat, now: nat, moveOk: bool, cfg: Config)
    requires MoveArgs(cache, m, cur, target, cfg)
    ensures var r := Move(cache, m, cur, target, now, moveOk, cfg);
            var b := cache[cur];
            && (r.cache[cur] == b || r.cache[cur].device == target)
            && (r.cache[cur].device != b.device <==>
                  target != b.device && CopyAlloc(m, b.(device := target), now, cfg).1.device != 0 && moveOk)
  {
    MoveOutcome(cache, m, cur, target, now, moveOk, cfg);
    if Move(cache, m, cur, target, now, moveOk, cfg).res == 0 {
      MoveCommits(cache, m, cur, target, now, moveOk, cfg);
    }
  }

  /** `migrate_up_ifneeded` of entry `cur`: a block on tier 1 or
      unallocated stays; otherwise it moves to the tier `PromoteTo` picks
      when that is a different one. */
  function MigrateUp(cache: seq<BlockInfo>, m: Meta, cur: nat, now: nat, moveOk: bool, cfg: Config): MoveResult
    requires Wf(cache, m, cfg) && cur < |cache|
  {
    var b := cache[cur];
    if b.device <= 1 then MoveResult(0, cache, m)
    else
      assert LocationValid(b.device, b.offset, Layout(m.devs), cfg);
      var target := PromoteTo(b, m.devs);
      if target == b.device then MoveResult(0, cache, m)
      else Move(cache, m, cur, target, now, moveOk, cfg)
  }

  /** `migrate_up_ifneeded` keeps the state and moves the block at most one
      tier up; a block on tier 1 or unallocated is left alone, and a
      failed move leaves the map as it was. */
  lemma MigrateUpKeeps(cache: seq<BlockInfo>, m: Meta, cur: nat, now: nat, moveOk: bool, cfg: Config)
    requires Wf(cache, m, cfg) && cur < |cache|
    ensures var r := MigrateUp(cache, m, cur, now, moveOk, cfg);
            var b := cache[cur];
            && Keeps(cache, m, r.cache, r.meta, cur, cfg)
            && (r.cache[cur] == b || (b.device > 1 && r.cache[cur].device == b.device - 1))
            && (b.device <= 1 ==> r == MoveResult(0, cache, m))
            && (r.res != 0 ==> r.cache == cache)
  {
    var b := cache[cur];
    if b.device > 1 {
      assert LocationValid(b.device, b.offset, Layout(m.devs), cfg);
      var target := PromoteTo(b, m.devs);
      if target != b.device {
        MoveKeeps(cache, m, cur, target, now, moveOk, cfg);
        MoveOutcome(cache, m, cur, target, now, moveOk, cfg);
      }
    }
  }

  /** The block changes tier exactly when the thresholds ask for it and
      the move completes. */
  lemma MigrateUpWhen(cache: seq<BlockInfo>, m: Meta, cur: nat, now: nat, moveOk: bool, cfg: Config)
    requires Wf(cache, m, cfg) && cur < |cache| && 1 <= cache[cur].device <= |m.devs|
    ensures var r := MigrateUp(cache, m, cur, now, moveOk, cfg);
            var b := cache[cur];
            var target := PromoteTo(b, m.devs);
            r.cache[cur].device != b.device <==>
              target != b.device && CopyAlloc(m, b.(device := target), now, cfg).1.device != 0 && moveOk
  {
    var b := cache[cur];
    var target := PromoteTo(b, m.devs);
    if target != b.device {
      MoveWhen(cache, m, cur, target, now, moveOk, cfg);
    }
  }

  /** `migrate_down_ifneeded` of entry `cur`: an allocated block moves to
      the tier `DemoteTo` picks when that is a different one (a pick past
      the last tier was already reverted there). */
  function MigrateDown(cache: seq<BlockInfo>, m: Meta, cur: nat, now: nat, moveOk: bool, cfg: Config): MoveResult
    requires Wf(cache, m, cfg) && cur < |cache|
  {
    var b := cache[cur];
    if b.device == 0 then MoveResult(0, cache, m)
    else
      assert LocationValid(b.device, b.offset, Layout(m.devs), cfg);
      var target := DemoteTo(b, m.devs, now);
      if target == b.device then MoveResult(0, cache, m)
      else Move(cache, m, cur, target, now, moveOk, cfg)
  }

  /** `migrate_down_ifneeded` keeps the state and moves the block at most
      one tier down, never past the last attached tier; an unallocated
      block is left alone, and a failed move leaves the map as it was. */
  lemma MigrateDownKeeps(cache: seq<BlockInfo>, m: Meta, cur: nat, now: nat, moveOk: bool, cfg: Config)
    requires Wf(cache, m, cfg) && cur < |cache|
    ensures var r := MigrateDown(cache, m, cur, now, moveOk, cfg);
            var b := cache[cur];
            && Keeps(cache, m, r.cache, r.meta, cur, cfg)
            && (r.cache[cur] == b || (r.cache[cur].device == b.device + 1 <= |m.devs|))
            && (b.device == 0 ==> r == MoveResult(0, cache, m))
            && (r.res != 0 ==> r.cache == cache)
  {
    var b := cache[cur];
    if b.device != 0 {
      assert LocationValid(b.device, b.offset, Layout(m.devs), cfg);
      var target := DemoteTo(b, m.devs, now);
      if target != b.device {
        MoveKeeps(cache, m, cur, target, now, moveOk, cfg);
        MoveOutcome(cache, m, cur, target, now, moveOk, cfg);
      }
    }
  }

  /** The block changes tier exactly when the thresholds ask for it and
      the move completes. */
  lemma MigrateDownWhen(cache: seq<BlockInfo>, m: Meta, cur: nat, now: nat, moveOk: bool, cfg: Config)
    requires Wf(cache, m, cfg) && cur < |cache| && 1 <= cache[cur].device <= |m.devs|
    ensures var r := MigrateDown(cache, m, cur, now, moveOk, cfg);
            var b := cache[cur];
            var target := DemoteTo(b, m.devs, now);
            r.cache[cur].device != b.device <==>
              target != b.device && CopyAlloc(m, b.(device := target), now, cfg).1.device != 0 && moveOk
  {
    var b := cache[cur];
    var target := DemoteTo(b, m.devs, now);
    if target != b.device {
      MoveWhen(cache, m, cur, target, now, moveOk, cfg);
    }
  }

  /** The state after `migrate_down_ifneeded` is well formed. */
  lemma MigrateDownWf(cache: seq<BlockInfo>, m: Meta, cur: nat, now: nat, moveOk: bool, cfg: Config)
    requires Wf(cache, m, cfg) && cur < |cache|
    ensures var r := MigrateDown(cache, m, cur, now, moveOk, cfg);
            Wf(r.cache, r.meta, cfg) && |r.cache| == |cache| && |r.meta.devs| == |m.devs|
  {
    MigrateDownKeeps(cache, m, cur, now, moveOk, cfg);
  }

  /** The state after `migrate_up_ifneeded` is well formed. */
  lemma MigrateUpWf(cache: seq<BlockInfo>, m: Meta, cur: nat, now: nat, moveOk: bool, cfg: Config)
    requires Wf(cache, m, cfg) && cur < |cache|
    ensures var r := MigrateUp(cache, m, cur, now, moveOk, cfg);
            Wf(r.cache, r.meta, cfg) && |r.cache| == |cache| && |r.meta.devs| == |m.devs|
  {
    MigrateUpKeeps(cache, m, cur, now, moveOk, cfg);
  }

  /** `update_blocklist` of a device not in error: when the on-disk record
      differs from the entry, the entry is stamped and written to disk. */
  function Update(cache: seq<BlockInfo>, m: Meta, blocknr: nat, now: nat): (seq<BlockInfo>, Meta)
    requires blocknr < |cache| && blocknr < |m.diskmap|
  {
    if SameBlockInfo(m.diskmap[blocknr], cache[blocknr]) then (cache, m)
    else
      var nb := cache[blocknr].(lastused := now);
      (cache[blocknr := nb], DiskWrite(m, blocknr, nb))
  }

  /** After `update_blocklist` the disk holds the entry; only that entry
      and its record may change, and nothing is written when they
      already agreed. */
  lemma UpdateSyncs(cache: seq<BlockInfo>, m: Meta, blocknr: nat, now: nat)
    requires blocknr < |cache| && blocknr < |m.diskmap|
    ensures var r := Update(cache, m, blocknr, now);
            && SameBlockInfo(r.1.diskmap[blocknr], r.0[blocknr])
            && r.1.devs == m.devs && SameLocations(cache, r.0) && |r.1.diskmap| == |m.diskmap|
            && (forall k :: 0 <= k < |cache| && k != blocknr ==> r.0[k] == cache[k])
            && (forall k :: 0 <= k < |m.diskmap| && k != blocknr ==> r.1.diskmap[k] == m.diskmap[k])
            && (r == (cache, m) <==> SameBlockInfo(m.diskmap[blocknr], cache[blocknr]))
  {
    var r := Update(cache, m, blocknr, now);
    if !SameBlockInfo(m.diskmap[blocknr], cache[blocknr]) {
      assert SameBlockInfo(r.1.diskmap[blocknr], r.0[blocknr]);
      assert r.0 != cache || r.1 != m by {
        if r.0 == cache {
          assert r.0[blocknr] == cache[blocknr];
        }
      }
    }
  }

  /** Changing the counters and last use of entry `cur` keeps the state. */
  lemma CountsOnly(cache: seq<BlockInfo>, m: Meta, cur: nat, nb: BlockInfo, cfg: Config)
    requires Wf(cache, m, cfg) && cur < |cache|
    requires nb.device == cache[cur].device && nb.offset == cache[cur].offset
    ensures Keeps(cache, m, cache[cur := nb], m, cur, cfg)
  {
    var c1 := cache[cur := nb];
    assert SameLocations(cache, c1);
    assert MapOk(c1, Layout(m.devs), cfg) by {
      forall k | 0 <= k < |c1|
        ensures LocationValid(c1[k].device, c1[k].offset, Layout(m.devs), cfg)
      {
        assert LocationValid(cache[k].device, cache[k].offset, Layout(m.devs), cfg);
      }
    }
    if Placed(cache, m.devs, cfg) {
      PlacedKeepsUnderMarking(cache, m.devs, c1, m.devs, cfg);
    }
  }

  /** Rewriting the header of device `o` with the same data policy keeps
      the state. */
  lemma MagicOnly(cache: seq<BlockInfo>, m: Meta, o: nat, g: DeviceMagic, cur: nat, cfg: Config)
    requires Wf(cache, m, cfg) && o < |m.devs| && g.policy == m.devs[o].magic.policy
    ensures Keeps(cache, m, cache, m.(devs := m.devs[o := m.devs[o].(magic := g)]), cur, cfg)
  {
    HeaderOnly(cache, m, o, g, cfg);
  }

  /** Rewriting the header of device `o` keeps the state well formed, the
      geometry and the placement invariant. */
  lemma HeaderOnly(cache: seq<BlockInfo>, m: Meta, o: nat, g: DeviceMagic, cfg: Config)
    requires Wf(cache, m, cfg) && o < |m.devs|
    ensures var m1 := m.(devs := m.devs[o := m.devs[o].(magic := g)]);
            && Wf(cache, m1, cfg) && SameLayout(m.devs, m1.devs)
            && (Placed(cache, m.devs, cfg) ==> Placed(cache, m1.devs, cfg))
  {
    var d1 := m.devs[o := m.devs[o].(magic := g)];
    LayoutUpdate(m.devs, o, m.devs[o].(magic := g));
    assert KeepsAllocated(m.devs, d1);
    assert SameLocations(cache, cache);
    if Placed(cache, m.devs, cfg) {
      PlacedKeepsUnderMarking(cache, m.devs, cache, d1, cfg);
    }
  }

  /** Rewriting the header of device `o` keeps the state well formed. */
  lemma HeaderWf(cache: seq<BlockInfo>, m: Meta, o: nat, g: DeviceMagic, cfg: Config)
    requires Wf(cache, m, cfg) && o < |m.devs|
    ensures Wf(cache, m.(devs := m.devs[o := m.devs[o].(magic := g)]), cfg)
  {
    HeaderOnly(cache, m, o, g, cfg);
  }

  /** `update_blocklist` keeps the state. */
  lemma UpdateKeeps(cache: seq<BlockInfo>, m: Meta, blocknr: nat, now: nat, cfg: Config)
    requires Wf(cache, m, cfg) && blocknr < |cache|
    ensures var r := Update(cache, m, blocknr, now);
            Keeps(cache, m, r.0, r.1, blocknr, cfg)
  {
    if !SameBlockInfo(m.diskmap[blocknr], cache[blocknr]) {
      CountsOnly(cache, m, blocknr, cache[blocknr].(lastused := now), cfg);
    }
  }

  /** One block of `walk_blocklist`: for an allocated entry, the averages
      of its device are recomputed, `migrate_down_ifneeded` runs, and when
      that returned 0, `migrate_up_ifneeded` runs, the entry's counters
      that reached MAX_STAT_COUNT decay -- on the totals of the device it
      was on when the step began, whatever the movers did -- and
      `update_blocklist` writes the entry out. */
  function Visit(cache: seq<BlockInfo>, m: Meta, cur: nat, now: nat, moveOk: bool, cfg: Config)
    : (seq<BlockInfo>, Meta)
    requires Wf(cache, m, cfg) && cur < |cache| && cfg.Valid()
  {
    var b := cache[cur];
    if b.device == 0 then (cache, m)
    else
      assert LocationValid(b.device, b.offset, Layout(m.devs), cfg);
      var o := b.device - 1;
      LayoutValidAt(m.devs, o, cfg);
      var m1 := m.(devs := m.devs[o := RecomputeAverages(m.devs[o], cfg)]);
      HeaderWf(cache, m, o, RecomputeAverages(m.devs[o], cfg).magic, cfg);
      var down := MigrateDown(cache, m1, cur, now, moveOk, cfg);
      if down.res != 0 then (down.cache, down.meta)
      else
        MigrateDownWf(cache, m1, cur, now, moveOk, cfg);
        var up := MigrateUp(down.cache, down.meta, cur, now, moveOk, cfg);
        MigrateUpWf(down.cache, down.meta, cur, now, moveOk, cfg);
        var d := Decay(up.cache[cur], up.meta.devs[o].magic, cfg);
        Update(up.cache[cur := d.0], up.meta.(devs := up.meta.devs[o := up.meta.devs[o].(magic := d.1)]), cur, now)
  }

  /** A step of the walk keeps the state and moves the block at most one
      tier: a move down followed by a move up lands where it started. */
  lemma VisitKeeps(cache: seq<BlockInfo>, m: Meta, cur: nat, now: nat, moveOk: bool, cfg: Config)
    requires Wf(cache, m, cfg) && cur < |cache| && cfg.Valid()
    ensures var r := Visit(cache, m, cur, now, moveOk, cfg);
            Keeps(cache, m, r.0, r.1, cur, cfg) && OneTier(cache[cur].device, r.0[cur].device)
  {
    var b := cache[cur];
    if b.device != 0 {
      assert LocationValid(b.device, b.offset, Layout(m.devs), cfg);
      var o := b.device - 1;
      LayoutValidAt(m.devs, o, cfg);
      var m1 := m.(devs := m.devs[o := RecomputeAverages(m.devs[o], cfg)]);
      MagicOnly(cache, m, o, RecomputeAverages(m.devs[o], cfg).magic, cur, cfg);
      var down := MigrateDown(cache, m1, cur, now, moveOk, cfg);
      MigrateDownKeeps(cache, m1, cur, now, moveOk, cfg);
      KeepsTrans(cache, m, cache, m1, down.cache, down.meta, cur, cfg);
      if down.res == 0 {
        var up := MigrateUp(down.cache, down.meta, cur, now, moveOk, cfg);
        MigrateUpKeeps(down.cache, down.meta, cur, now, moveOk, cfg);
        KeepsTrans(cache, m, down.cache, down.meta, up.cache, up.meta, cur, cfg);
        var d := Decay(up.cache[cur], up.meta.devs[o].magic, cfg);
        var c3 := up.cache[cur := d.0];
        CountsOnly(up.cache, up.meta, cur, d.0, cfg);
        KeepsTrans(cache, m, up.cache, up.meta, c3, up.meta, cur, cfg);
        var m3 := up.meta.(devs := up.meta.devs[o := up.meta.devs[o].(magic := d.1)]);
        MagicOnly(c3, up.meta, o, d.1, cur, cfg);
        KeepsTrans(cache, m, c3, up.meta, c3, m3, cur, cfg);
        var r := Update(c3, m3, cur, now);
        UpdateKeeps(c3, m3, cur, now, cfg);
        UpdateSyncs(c3, m3, cur, now);
        KeepsTrans(cache, m, c3, m3, r.0, r.1, cur, cfg);
      }
    }
  }

  /** What a whole walk keeps: a well-formed state, the geometry, every
      data policy, the placement invariant, and every block at most one
      tier from where it was. */
  predicate KeepsAll(c0: seq<BlockInfo>, m0: Meta, c1: seq<BlockInfo>, m1: Meta, cfg: Config) {
    && Wf(c1, m1, cfg) && SameLayout(m0.devs, m1.devs) && |c1| == |c0| && |m1.devs| == |m0.devs|
    && (forall e :: 0 <= e < |m0.devs| ==> m1.devs[e].magic.policy == m0.devs[e].magic.policy)
    && (Placed(c0, m0.devs, cfg) ==> Placed(c1, m1.devs, cfg))
    && (forall j :: 0 <= j < |c0| ==> OneTier(c0[j].device, c1[j].device))
  }

  lemma KeepsAllRefl(cache: seq<BlockInfo>, m: Meta, cfg: Config)
    requires Wf(cache, m, cfg)
    ensures KeepsAll(cache, m, cache, m, cfg)
  {
  }

  /** A step on block `k` followed by steps that leave block `k` alone
      keeps everything a walk keeps. */
  lemma KeepsAllStep(c0: seq<BlockInfo>, m0: Meta, c1: seq<BlockInfo>, m1: Meta, c2: seq<BlockInfo>, m2: Meta,
                     k: nat, cfg: Config)
    requires KeepsAll(c0, m0, c1, m1, cfg) && k < |c1| && c1[k] == c0[k]
    requires Keeps(c1, m1, c2, m2, k, cfg) && OneTier(c1[k].device, c2[k].device)
    ensures KeepsAll(c0, m0, c2, m2, cfg)
  {
    forall j | 0 <= j < |c0|
      ensures OneTier(c0[j].device, c2[j].device)
    {
      if j != k {
        assert c2[j] == c1[j];
      }
    }
  }

  /** `do_migrate_direct` first switches off the periodic migration in the
      policy of tier 1 (the first device). */
  function DisableMigration(m: Meta): (r: Meta)
    requires |m.devs| >= 1
    ensures r.diskmap == m.diskmap && |r.devs| == |m.devs|
    ensures r.devs[0] == m.devs[0].(magic := r.devs[0].magic)
    ensures r.devs[0].magic == m.devs[0].magic.(policy := m.devs[0].magic.policy.(migrationDisabled := true))
    ensures forall e :: 1 <= e < |m.devs| ==> r.devs[e] == m.devs[e]
  {
    var g := m.devs[0].magic;
    m.(devs := m.devs[0 := m.devs[0].(magic := g.(policy := g.policy.(migrationDisabled := true)))])
  }

  /** Disabling migration keeps the state. */
  lemma DisableKeeps(cache: seq<BlockInfo>, m: Meta, cfg: Config)
    requires Wf(cache, m, cfg)
    ensures var m1 := DisableMigration(m);
            && Wf(cache, m1, cfg) && SameLayout(m.devs, m1.devs)
            && (Placed(cache, m.devs, cfg) ==> Placed(cache, m1.devs, cfg))
  {
    HeaderOnly(cache, m, 0, DisableMigration(m).devs[0].magic, cfg);
  }

  /** Disabling migration keeps the state well formed. */
  lemma DisableWf(cache: seq<BlockInfo>, m: Meta, cfg: Config)
    requires Wf(cache, m, cfg)
    ensures Wf(cache, DisableMigration(m), cfg) && |DisableMigration(m).devs| == |m.devs|
  {
    HeaderWf(cache, m, 0, DisableMigration(m).devs[0].magic, cfg);
  }

  /** `do_migrate_direct` of block `blocknr` to the 0-based tier
      `newdevice`: after disabling migration, a block outside the map (the
      driver's NULL entry) or an unallocated one is left alone, so is one
      already on that tier (-EEXIST); otherwise it is moved. */
  function MigrateDirectly(cache: seq<BlockInfo>, m: Meta, blocknr: nat, newdevice: nat, now: nat, moveOk: bool,
                           cfg: Config): (seq<BlockInfo>, Meta)
    requires Wf(cache, m, cfg) && newdevice < |m.devs|
  {
    DisableWf(cache, m, cfg);
    DirectMove(cache, DisableMigration(m), blocknr, newdevice, now, moveOk, cfg)
  }

  /** The part of `do_migrate_direct` after migration is disabled. */
  function DirectMove(cache: seq<BlockInfo>, m: Meta, blocknr: nat, newdevice: nat, now: nat, moveOk: bool,
                      cfg: Config): (seq<BlockInfo>, Meta)
    requires Wf(cache, m, cfg) && newdevice < |m.devs|
  {
    if blocknr >= |cache| || cache[blocknr].device == 0 then (cache, m)
    else if cache[blocknr].device - 1 == newdevice then (cache, m)
    else
      var r := Move(cache, m, blocknr, newdevice + 1, now, moveOk, cfg);
      (r.cache, r.meta)
  }

  /** A direct migration leaves migration disabled and keeps the state;
      only the named block may change. */
  lemma MigrateDirectlyKeeps(cache: seq<BlockInfo>, m: Meta, blocknr: nat, newdevice: nat, now: nat,
                             moveOk: bool, cfg: Config)
    requires Wf(cache, m, cfg) && newdevice < |m.devs|
    ensures var r := MigrateDirectly(cache, m, blocknr, newdevice, now, moveOk, cfg);
            && Wf(r.0, r.1, cfg) && SameLayout(m.devs, r.1.devs) && |r.0| == |cache|
            && r.1.devs[0].magic.policy.migrationDisabled
            && (Placed(cache, m.devs, cfg) ==> Placed(r.0, r.1.devs, cfg))
            && (forall k :: 0 <= k < |cache| && k != blocknr ==> r.0[k] == cache[k])
            && (blocknr >= |cache| ==> r.0 == cache)
  {
    var m1 := DisableMigration(m);
    DisableKeeps(cache, m, cfg);
    DirectMoveKeeps(cache, m1, blocknr, newdevice, now, moveOk, cfg);
    var r := DirectMove(cache, m1, blocknr, newdevice, now, moveOk, cfg);
    assert r.1.devs[0].magic.policy == m1.devs[0].magic.policy;
  }

  /** The move of a direct migration keeps the state. */
  lemma DirectMoveKeeps(cache: seq<BlockInfo>, m: Meta, blocknr: nat, newdevice: nat, now: nat,
                        moveOk: bool, cfg: Config)
    requires Wf(cache, m, cfg) && newdevice < |m.devs|
    ensures var r := DirectMove(cache, m, blocknr, newdevice, now, moveOk, cfg);
            && Keeps(cache, m, r.0, r.1, blocknr, cfg)
            && (blocknr >= |cache| ==> r.0 == cache)
  {
    var r := DirectMove(cache, m, blocknr, newdevice, now, moveOk, cfg);
    if blocknr < |cache| && cache[blocknr].device != 0 && cache[blocknr].device - 1 != newdevice {
      var mv := Move(cache, m, blocknr, newdevice + 1, now, moveOk, cfg);
      MoveKeeps(cache, m, blocknr, newdevice + 1, now, moveOk, cfg);
      assert r.0 == mv.cache && r.1 == mv.meta;
    } else {
      assert r.0 == cache && r.1 == m;
      KeepsRefl(cache, m, blocknr, cfg);
    }
  }

  lemma KeepsRefl(cache: seq<BlockInfo>, m: Meta, cur: nat, cfg: Config)
    requires Wf(cache, m, cfg)
    ensures Keeps(cache, m, cache, m, cur, cfg)
  {
  }

  /** The block a direct migration names ends up on the named tier
      exactly when it was allocated, the target had room and the data copy
      went through; otherwise it keeps its value. */
  lemma MigrateDirectlyWhen(cache: seq<BlockInfo>, m: Meta, blocknr: nat, newdevice: nat, now: nat,
                            moveOk: bool, cfg: Config)
    requires Wf(cache, m, cfg) && newdevice < |m.devs| && blocknr < |cache|
    ensures var r := MigrateDirectly(cache, m, blocknr, newdevice, now, moveOk, cfg);
            var b := cache[blocknr];
            && (r.0[blocknr] == b || r.0[blocknr].device == newdevice + 1)
            && (r.0[blocknr].device != b.device <==>
                  && b.device != 0 && b.device != newdevice + 1
                  && CopyAlloc(DisableMigration(m), b.(device := newdevice + 1), now, cfg).1.device != 0
                  && moveOk)
  {
    var m1 := DisableMigration(m);
    DisableKeeps(cache, m, cfg);
    var b := cache[blocknr];
    if b.device != 0 && b.device - 1 != newdevice {
      MoveWhen(cache, m1, blocknr, newdevice + 1, now, moveOk, cfg);
    }
  }

  /** Freeing a slot leaves it marked free, inside the same geometry. */
  lemma FreedSlot(devs: seq<BackingDevice>, b: BlockInfo, cfg: Config)
    requires 1 <= b.device <= |devs| && SlotInRange(devs[b.device - 1], b.offset, cfg)
    requires devs[b.device - 1].deviceSize >= cfg.blkSize
    ensures var d := FreeSource(devs, b, cfg);
            && |d| == |devs| && SlotInRange(d[b.device - 1], b.offset, cfg) && SlotByteOf(b, d, cfg) == Unallocated
  {
    FreeSourceFacts(devs, b, cfg);
    SameLayoutAt(devs, FreeSource(devs, b, cfg), b.device - 1);
  }

  /** `copyblock` called with `olddevice` the map entry itself, as
      `migrate_data_if_needed` calls it. It runs as `Copy` does, but the WA
      write turns the entry into the new one before the journal is
      cleaned, so a completed copy commits through `AliasedCommit`. */
  function CopyOnEntry(cache: seq<BlockInfo>, m: Meta, nd: BlockInfo, curblock: nat, now: nat, moveOk: bool,
                       cfg: Config): CopyResult
    requires curblock < |cache| && CopyArgs(cache, m, nd, cache[curblock], curblock)
  {
    var od := cache[curblock];
    var a := CopyAlloc(m, nd, now, cfg);
    if nd.device == od.device || a.1.device == 0 || !moveOk then Copy(cache, m, nd, od, curblock, now, moveOk, cfg)
    else CopyResult(0, a.1, cache[curblock := a.1], AliasedCommit(m, curblock, a.1, od, a.0, cfg))
  }

  /** `copyblock` on the map entry returns what it returns on a saved copy,
      leaves the same map and the same bitlists, and keeps the state well
      formed. A completed copy differs in the journals only: the new
      tier's is cleaned and marked CLEAN, while the entry's old tier keeps
      the move pending. */
  lemma CopyOnEntryCommits(cache: seq<BlockInfo>, m: Meta, nd: BlockInfo, curblock: nat, now: nat, moveOk: bool,
                           cfg: Config)
    requires curblock < |cache| && CopyArgs(cache, m, nd, cache[curblock], curblock) && Wf(cache, m, cfg)
    ensures var r := CopyOnEntry(cache, m, nd, curblock, now, moveOk, cfg);
            var c := Copy(cache, m, nd, cache[curblock], curblock, now, moveOk, cfg);
            var o := cache[curblock].device - 1;
            && r.res == c.res && r.nb == c.nb && r.cache == c.cache
            && Wf(r.cache, r.meta, cfg) && SameLayout(m.devs, r.meta.devs) && |r.meta.devs| == |m.devs|
            && (r.res != 0 ==> r.meta == c.meta)
            && (r.res == 0 ==>
                  && MarkedAt(m.devs, r.meta.devs, nd.device - 1, r.nb.offset, cfg)
                  && OtherBitlistsKept(m.devs, r.meta.devs, nd.device - 1, nd.device - 1)
                  && SameBlockInfo(r.meta.diskmap[curblock], r.nb)
                  && (forall k :: 0 <= k < |m.diskmap| && k != curblock ==> r.meta.diskmap[k] == m.diskmap[k])
                  && JournalClear(r.meta, nd.device - 1) && r.meta.devs[nd.device - 1].magic.clean == cfg.clean
                  && !JournalClear(r.meta, o)
                  && r.meta.devs[o].magic.journalOld == CopyBlockInfo(cache[curblock])
                  && r.meta.devs[o].magic.journalNew == CopyBlockInfo(r.nb)
                  && r.meta.devs[o].magic.blocknrJournal == curblock
                  && r.meta.devs[o].magic.clean == m.devs[o].magic.clean)
  {
    var od := cache[curblock];
    var a := CopyAlloc(m, nd, now, cfg);
    CopyKeepsShape(cache, m, nd, od, curblock, now, moveOk, cfg);
    if nd.device != od.device && a.1.device != 0 && moveOk {
      var t := nd.device - 1;
      CopyCommits(cache, m, nd, od, curblock, now, moveOk, cfg);
      LayoutUpdate(m.devs, t, a.0);
      assert Layout(m.devs)[t] == Geo(m.devs[t]);
      MapOkStore(cache, Layout(m.devs), curblock, a.1, cfg);
    }
  }

  /** One block of `migrate_data_if_needed`: `copyblock` to tier `changed`
      on the map entry itself. After a completed copy that entry already
      shows the new one, so the journal cleaned, the counters reset and the
      slot freed are those of the NEW location, and the walk ends with -1.
      A failed copy returns its code with what it left. */
  function EvacuateOne(cache: seq<BlockInfo>, m: Meta, k: nat, changed: nat, now: nat, moveOk: bool,
                       cfg: Config): MoveResult
    requires Wf(cache, m, cfg) && k < |cache| && changed < |m.devs| && cache[k].device == 1
  {
    var nd := cache[k].(device := changed + 1);
    var c := CopyOnEntry(cache, m, nd, k, now, moveOk, cfg);
    if c.res != 0 then MoveResult(c.res, c.cache, c.meta)
    else
      EvacuateFrees(cache, m, k, changed, now, moveOk, cfg);
      MoveResult(-1, c.cache[k := c.nb.(lastused := now)], c.meta.(devs := FreeSource(c.meta.devs, c.nb, cfg)))
  }

  /** What `FreeSource` needs after a completed copy of block `k`. */
  lemma EvacuateFrees(cache: seq<BlockInfo>, m: Meta, k: nat, changed: nat, now: nat, moveOk: bool, cfg: Config)
    requires Wf(cache, m, cfg) && k < |cache| && changed < |m.devs| && cache[k].device == 1
    requires CopyOnEntry(cache, m, cache[k].(device := changed + 1), k, now, moveOk, cfg).res == 0
    ensures var c := CopyOnEntry(cache, m, cache[k].(device := changed + 1), k, now, moveOk, cfg);
            && c.nb.device == changed + 1 && changed != 0 && |c.meta.devs| == |m.devs|
            && SlotInRange(c.meta.devs[changed], c.nb.offset, cfg)
            && c.meta.devs[changed].deviceSize >= cfg.blkSize
            && c.cache == cache[k := c.nb]
            && c.nb == cache[k].(device := changed + 1, readcount := 0, writecount := 0, lastused := now,
                                 offset := c.nb.offset)
            && Wf(c.cache, c.meta, cfg) && SameLayout(m.devs, c.meta.devs)
  {
    var nd := cache[k].(device := changed + 1);
    var c := CopyOnEntry(cache, m, nd, k, now, moveOk, cfg);
    CopyOnEntryCommits(cache, m, nd, k, now, moveOk, cfg);
    CopyOutcome(cache, m, nd, cache[k], k, now, moveOk, cfg);
    CopyCommits(cache, m, nd, cache[k], k, now, moveOk, cfg);
    SameLayoutAt(m.devs, c.meta.devs, changed);
    LayoutValidAt(c.meta.devs, changed, cfg);
  }

  /** One block of `migrate_data_if_needed` keeps the state well formed and
      the geometry; a failed copy leaves the map as it was, and a completed
      one leaves block `k` on the changed tier with zeroed counters, on a
      slot marked free, with tier 0's journal still holding the move. */
  lemma EvacuateOneFacts(cache: seq<BlockInfo>, m: Meta, k: nat, changed: nat, now: nat, moveOk: bool,
                         cfg: Config)
    requires Wf(cache, m, cfg) && k < |cache| && changed < |m.devs| && cache[k].device == 1
    ensures var r := EvacuateOne(cache, m, k, changed, now, moveOk, cfg);
            && Wf(r.cache, r.meta, cfg) && SameLayout(m.devs, r.meta.devs)
            && (r.res == -1 || r.res == -EEXIST || r.res == -ENOSPC || r.res == -EIO)
            && (r.res != -1 ==> r.cache == cache)
            && (r.res == -1 ==> EvacuatedAt(cache, r, k, changed, now, cfg))
  {
    var nd := cache[k].(device := changed + 1);
    var c := CopyOnEntry(cache, m, nd, k, now, moveOk, cfg);
    CopyOnEntryCommits(cache, m, nd, k, now, moveOk, cfg);
    CopyOutcome(cache, m, nd, cache[k], k, now, moveOk, cfg);
    if c.res == 0 {
      EvacuateFrees(cache, m, k, changed, now, moveOk, cfg);
      var r := EvacuateOne(cache, m, k, changed, now, moveOk, cfg);
      FreeSourceFacts(c.meta.devs, c.nb, cfg);
      FreedSlot(c.meta.devs, c.nb, cfg);
      LayoutValidAt(c.meta.devs, changed, cfg);
      MapOkStore(c.cache, Layout(r.meta.devs), k, c.nb, cfg);
      assert r.meta.devs[0] == c.meta.devs[0];
      assert r.meta.devs[changed].magic.journalOld == c.meta.devs[changed].magic.journalOld;
    }
  }

  /** The state after one block of `migrate_data_if_needed` is well formed. */
  lemma EvacuateOneWf(cache: seq<BlockInfo>, m: Meta, k: nat, changed: nat, now: nat, moveOk: bool, cfg: Config)
    requires Wf(cache, m, cfg) && k < |cache| && changed < |m.devs| && cache[k].device == 1
    ensures var r := EvacuateOne(cache, m, k, changed, now, moveOk, cfg);
            Wf(r.cache, r.meta, cfg) && |r.cache| == |cache| && |r.meta.devs| == |m.devs|
  {
    var r := EvacuateOne(cache, m, k, changed, now, moveOk, cfg);
    EvacuateOneFacts(cache, m, k, changed, now, moveOk, cfg);
    SameLayoutAt(m.devs, r.meta.devs, 0);
  }

  /** Block `j` moved from tier 1 to tier `changed` the way a completed
      copy of `migrate_data_if_needed` leaves it: it alone changed, it sits
      on the changed tier with zeroed counters, its slot there is marked
      free, the changed tier's journal is clear and tier 0's journal still
      records the move of block `j`. */
  predicate EvacuatedAt(cache: seq<BlockInfo>, r: MoveResult, j: nat, changed: nat, now: nat, cfg: Config) {
    && j < |cache| && |r.cache| == |cache| && cache[j].device == 1
    && r.cache == cache[j := r.cache[j]]
    && r.cache[j] == cache[j].(device := changed + 1, readcount := 0, writecount := 0, lastused := now,
                               offset := r.cache[j].offset)
    && changed < |r.meta.devs| && SlotInRange(r.meta.devs[changed], r.cache[j].offset, cfg)
    && SlotByteOf(r.cache[j], r.meta.devs, cfg) == Unallocated
    && changed != 0 && JournalClear(r.meta, changed)
    && r.meta.devs[0].magic.journalOld == CopyBlockInfo(cache[j])
    && r.meta.devs[0].magic.journalNew == CopyBlockInfo(r.cache[j])
    && r.meta.devs[0].magic.blocknrJournal == j
  }

  /** `migrate_data_if_needed` from block `k` on: every block on tier 1
      whose offset lies in `[start, start + size]` is copied to the 0-based
      tier `changed`, and the walk stops after the first completed copy
      (with -1) or when the device is in error (-EIO); `fails` are the
      blocks whose data copy fails. */
  function Evacuate(cache: seq<BlockInfo>, m: Meta, k: nat, start: nat, size: nat, changed: nat, now: nat,
                    fails: set<nat>, inerror: bool, cfg: Config): MoveResult
    requires Wf(cache, m, cfg) && k <= |cache| && changed < |m.devs|
    decreases |cache| - k
  {
    if k == |cache| then MoveResult(0, cache, m)
    else if inerror then MoveResult(-EIO, cache, m)
    else if cache[k].device != 1 || !(start <= cache[k].offset <= start + size) then
      Evacuate(cache, m, k + 1, start, size, changed, now, fails, inerror, cfg)
    else
      var s := EvacuateOne(cache, m, k, changed, now, k !in fails, cfg);
      EvacuateOneWf(cache, m, k, changed, now, k !in fails, cfg);
      if s.res == -1 then s
      else Evacuate(s.cache, s.meta, k + 1, start, size, changed, now, fails, inerror, cfg)
  }

  /** What one iteration of `migrate_data_if_needed` leads to: the walk
      stops with a result, or goes on at the next block from a new state. */
  datatype EvacStep = Stop(result: MoveResult) | Next(cache: seq<BlockInfo>, meta: Meta)

  /** The iteration of `migrate_data_if_needed` at block `k`. */
  function EvacuateAt(cache: seq<BlockInfo>, m: Meta, k: nat, start: nat, size: nat, changed: nat, now: nat,
                      fails: set<nat>, inerror: bool, cfg: Config): (st: EvacStep)
    requires Wf(cache, m, cfg) && k < |cache| && changed < |m.devs|
    ensures st.Next? ==> Wf(st.cache, st.meta, cfg) && |st.cache| == |cache| && |st.meta.devs| == |m.devs|
    ensures st.Next? && (inerror || cache[k].device != 1 || !(start <= cache[k].offset <= start + size))
            ==> st == Next(cache, m)
  {
    if inerror then Stop(MoveResult(-EIO, cache, m))
    else if cache[k].device != 1 || !(start <= cache[k].offset <= start + size) then Next(cache, m)
    else
      var s := EvacuateOne(cache, m, k, changed, now, k !in fails, cfg);
      EvacuateOneWf(cache, m, k, changed, now, k !in fails, cfg);
      if s.res == -1 then Stop(s) else Next(s.cache, s.meta)
  }

  /** The walk of `migrate_data_if_needed` is its iterations in order. */
  lemma EvacuateSteps(cache: seq<BlockInfo>, m: Meta, k: nat, start: nat, size: nat, changed: nat, now: nat,
                      fails: set<nat>, inerror: bool, cfg: Config)
    requires Wf(cache, m, cfg) && k < |cache| && changed < |m.devs|
    ensures var st := EvacuateAt(cache, m, k, start, size, changed, now, fails, inerror, cfg);
            Evacuate(cache, m, k, start, size, changed, now, fails, inerror, cfg) ==
            match st
            case Stop(r) => r
            case Next(c, m1) => Evacuate(c, m1, k + 1, start, size, changed, now, fails, inerror, cfg)
  {
  }

  /** The return codes of `migrate_data_if_needed`: 0 after a walk in which
      no copy completed, and then the map is unchanged; -EIO exactly when the
      device is in error and a block is left; -1 after a completed copy,
      which moved exactly one block of tier 1 in the range to the changed
      tier -- and left that block on a slot marked free. */
  lemma {:induction false} EvacuateOutcome(cache: seq<BlockInfo>, m: Meta, k: nat, start: nat, size: nat,
                                           changed: nat, now: nat, fails: set<nat>, inerror: bool, cfg: Config)
    requires Wf(cache, m, cfg) && k <= |cache| && changed < |m.devs|
    decreases |cache| - k
    ensures var r := Evacuate(cache, m, k, start, size, changed, now, fails, inerror, cfg);
            && Wf(r.cache, r.meta, cfg) && SameLayout(m.devs, r.meta.devs) && |r.cache| == |cache|
            && (r.res == 0 || r.res == -1 || r.res == -EIO)
            && (r.res == -EIO <==> inerror && k < |cache|)
            && (r.res != -1 ==> r.cache == cache)
            && (r.res == -1 ==> exists j :: k <= j < |cache| && start <= cache[j].offset <= start + size
                                            && EvacuatedAt(cache, r, j, changed, now, cfg))
  {
    if k < |cache| && !inerror {
      if cache[k].device != 1 || !(start <= cache[k].offset <= start + size) {
        EvacuateOutcome(cache, m, k + 1, start, size, changed, now, fails, inerror, cfg);
      } else {
        var s := EvacuateOne(cache, m, k, changed, now, k !in fails, cfg);
        EvacuateOneFacts(cache, m, k, changed, now, k !in fails, cfg);
        if s.res != -1 {
          EvacuateOutcome(s.cache, s.meta, k + 1, start, size, changed, now, fails, inerror, cfg);
        }
      }
    }
  }

  /** A completed `migrate_data_if_needed` breaks the placement
      invariant: the moved block sits on a slot marked free. */
  lemma EvacuateBreaksPlacement(cache: seq<BlockInfo>, m: Meta, k: nat, start: nat, size: nat, changed: nat,
                                now: nat, fails: set<nat>, inerror: bool, cfg: Config)
    requires Wf(cache, m, cfg) && k <= |cache| && changed < |m.devs|
    requires Evacuate(cache, m, k, start, size, changed, now, fails, inerror, cfg).res == -1
    ensures var r := Evacuate(cache, m, k, start, size, changed, now, fails, inerror, cfg);
            !Consistent(r.cache, r.meta.devs, cfg)
  {
    EvacuateOutcome(cache, m, k, start, size, changed, now, fails, inerror, cfg);
    var r := Evacuate(cache, m, k, start, size, changed, now, fails, inerror, cfg);
    var j :| k <= j < |cache| && start <= cache[j].offset <= start + size && EvacuatedAt(cache, r, j, changed, now, cfg);
    OnFreeSlot(r.cache, r.meta.devs, j, cfg);
  }

  /** After a -1 return of `migrate_data_if_needed` tier 0's journal is
      still pending: it records a block of the range leaving tier 0 for the
      grown tier, while the grown tier's header is the one that was
      cleaned. Recovery at the next attach that finds tier 0 not CLEAN
      would revert that block to tier 0. */
  lemma EvacuateLeavesJournalPending(cache: seq<BlockInfo>, m: Meta, k: nat, start: nat, size: nat, changed: nat,
                                     now: nat, fails: set<nat>, inerror: bool, cfg: Config)
    requires Wf(cache, m, cfg) && k <= |cache| && changed < |m.devs|
    requires Evacuate(cache, m, k, start, size, changed, now, fails, inerror, cfg).res == -1
    ensures var r := Evacuate(cache, m, k, start, size, changed, now, fails, inerror, cfg);
            && |r.meta.devs| == |m.devs| && |r.cache| == |cache| && changed != 0
            && !JournalClear(r.meta, 0) && JournalClear(r.meta, changed)
            && var j := r.meta.devs[0].magic.blocknrJournal;
               && k <= j < |cache| && cache[j].device == 1 && start <= cache[j].offset <= start + size
               && r.meta.devs[0].magic.journalOld == CopyBlockInfo(cache[j])
               && r.meta.devs[0].magic.journalNew == CopyBlockInfo(r.cache[j])
               && r.cache[j].device == changed + 1
  {
    EvacuateOutcome(cache, m, k, start, size, changed, now, fails, inerror, cfg);
    var r := Evacuate(cache, m, k, start, size, changed, now, fails, inerror, cfg);
    var j :| k <= j < |cache| && start <= cache[j].offset <= start + size && EvacuatedAt(cache, r, j, changed, now, cfg);
    assert r.meta.devs[0].magic.blocknrJournal == j;
  }

  /** The walk's frame on the map: outside `[lo, hi)` every entry of `c` is
      still the one of `c0`. */
  predicate UntouchedOutside(c0: seq<BlockInfo>, c: seq<BlockInfo>, lo: nat, hi: nat) {
    && |c| == |c0|
    && forall j :: 0 <= j < |c| && (j < lo || hi <= j) ==> c[j] == c0[j]
  }

  /** The walk from block `lo` has visited the blocks before `cur`: it kept
      what a walk keeps, touched nothing outside `[lo, cur)` and met no
      block of `busy`. */
  predicate WalkedTo(c0: seq<BlockInfo>, m0: Meta, c: seq<BlockInfo>, m: Meta, lo: nat, cur: nat,
                     busy: set<nat>, cfg: Config) {
    && KeepsAll(c0, m0, c, m, cfg) && lo <= cur
    && UntouchedOutside(c0, c, lo, cur)
    && forall j :: lo <= j < cur ==> j !in busy
  }

  /** Visiting block `cur`, which keeps the state and changes no other
      entry, extends the walk past it; the entries after `cur` are still
      those of `c0`. */
  lemma WalkedStep(c0: seq<BlockInfo>, m0: Meta, c1: seq<BlockInfo>, m1: Meta, c2: seq<BlockInfo>, m2: Meta,
                   lo: nat, cur: nat, busy: set<nat>, cfg: Config)
    requires WalkedTo(c0, m0, c1, m1, lo, cur, busy, cfg) && cur < |c1|
    requires Keeps(c1, m1, c2, m2, cur, cfg) && OneTier(c1[cur].device, c2[cur].device)
    ensures KeepsAll(c0, m0, c2, m2, cfg) && UntouchedOutside(c0, c2, lo, cur + 1)
    ensures forall j :: cur < j < |c2| ==> c2[j] == c0[j]
    ensures cur !in busy ==> WalkedTo(c0, m0, c2, m2, lo, cur + 1, busy, cfg)
  {
    KeepsAllStep(c0, m0, c1, m1, c2, m2, cur, cfg);
  }

  /** A map with an allocated entry on a slot marked free is not consistent. */
  lemma OnFreeSlot(cache: seq<BlockInfo>, devs: seq<BackingDevice>, j: nat, cfg: Config)
    requires j < |cache| && 1 <= cache[j].device <= |devs| && SlotInRange(devs[cache[j].device - 1], cache[j].offset, cfg)
    requires SlotByteOf(cache[j], devs, cfg) == Unallocated
    ensures !Consistent(cache, devs, cfg)
  {
  }
}
