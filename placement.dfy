/**
  The placement invariant of the block map over the device bitlists:
  every allocated entry names a slot of an attached device, that slot is
  marked ALLOCATED, and no two entries share a slot. The lemmas say which
  changes of the maps keep it.
 */
module Placement {
  import opened BtierTypes

  /** At least one attached device, and every device well formed. */
  predicate Shaped(devs: seq<BackingDevice>, cfg: Config) {
    |devs| >= 1 && LayoutValid(Layout(devs), cfg)
  }

  /** Every entry of `cache` is unallocated or names a slot of `layout`. */
  predicate MapOk(cache: seq<BlockInfo>, layout: seq<Geometry>, cfg: Config) {
    forall k :: 0 <= k < |cache| ==> LocationValid(cache[k].device, cache[k].offset, layout, cfg)
  }

  /** The slot a map entry occupies: its 1-based device and its bitlist
      index; (0, 0) for an unallocated entry. */
  function SlotOf(b: BlockInfo, layout: seq<Geometry>, cfg: Config): (nat, nat)
    requires LocationValid(b.device, b.offset, layout, cfg)
  {
    if b.device == 0 then (0, 0) else (b.device, (b.offset - layout[b.device - 1].startOfData) / cfg.blkSize)
  }

  /** The bitlist byte of the slot an allocated, in-range entry names. */
  function SlotByteOf(b: BlockInfo, devs: seq<BackingDevice>, cfg: Config): byte
    requires 1 <= b.device <= |devs| && SlotInRange(devs[b.device - 1], b.offset, cfg)
  {
    devs[b.device - 1].bitlist[SlotIndex(devs[b.device - 1], b.offset, cfg)]
  }

  /** Every allocated entry's slot is marked ALLOCATED in its device's
      bitlist. A marked slot no entry uses (a leak) is allowed. */
  predicate Consistent(cache: seq<BlockInfo>, devs: seq<BackingDevice>, cfg: Config) {
    && MapOk(cache, Layout(devs), cfg)
    && forall k :: 0 <= k < |cache| && cache[k].device != 0 ==> SlotByteOf(cache[k], devs, cfg) == Allocated
  }

  /** No two allocated entries share a slot. */
  predicate Exclusive(cache: seq<BlockInfo>, devs: seq<BackingDevice>, cfg: Config) {
    && MapOk(cache, Layout(devs), cfg)
    && forall k1, k2 {:trigger SlotOf(cache[k1], Layout(devs), cfg), SlotOf(cache[k2], Layout(devs), cfg)} ::
         (&& 0 <= k1 < |cache| && 0 <= k2 < |cache| && cache[k1].device != 0
          && SlotOf(cache[k1], Layout(devs), cfg) == SlotOf(cache[k2], Layout(devs), cfg)) ==> k1 == k2
  }

  /** The placement invariant the migration engine maintains. */
  predicate Placed(cache: seq<BlockInfo>, devs: seq<BackingDevice>, cfg: Config) {
    Shaped(devs, cfg) && Consistent(cache, devs, cfg) && Exclusive(cache, devs, cfg)
  }

  /** An entry at a valid location keeps the map valid when stored. */
  lemma MapOkStore(cache: seq<BlockInfo>, layout: seq<Geometry>, k: nat, b: BlockInfo, cfg: Config)
    requires MapOk(cache, layout, cfg) && k < |cache|
    requires LocationValid(b.device, b.offset, layout, cfg)
    ensures MapOk(cache[k := b], layout, cfg)
  {
  }

  /** Every byte ALLOCATED in `a` is still ALLOCATED in `b`. */
  predicate KeepsAllocated(a: seq<BackingDevice>, b: seq<BackingDevice>) {
    && |a| == |b|
    && forall e, j :: 0 <= e < |a| && 0 <= j < |a[e].bitlist| && a[e].bitlist[j] == Allocated ==>
         j < |b[e].bitlist| && b[e].bitlist[j] == Allocated
  }

  /** Two maps whose entries sit at the same places. */
  predicate SameLocations(a: seq<BlockInfo>, b: seq<BlockInfo>) {
    |a| == |b| && forall k :: 0 <= k < |a| ==> a[k].device == b[k].device && a[k].offset == b[k].offset
  }

  /** Device `t`'s slot at `offset` was not ALLOCATED in `a` and `b` is `a`
      with that slot marked. */
  predicate MarkedAt(a: seq<BackingDevice>, b: seq<BackingDevice>, t: nat, offset: nat, cfg: Config) {
    && t < |a| && t < |b| && SlotInRange(a[t], offset, cfg)
    && a[t].bitlist[SlotIndex(a[t], offset, cfg)] != Allocated
    && b[t].bitlist == a[t].bitlist[SlotIndex(a[t], offset, cfg) := Allocated]
  }

  /** `b`'s device `o` is `a`'s with the slot at `offset` cleared. */
  predicate ClearedAt(a: seq<BackingDevice>, b: seq<BackingDevice>, o: nat, offset: nat, cfg: Config) {
    && o < |a| && o < |b| && SlotInRange(a[o], offset, cfg)
    && b[o].bitlist == a[o].bitlist[SlotIndex(a[o], offset, cfg) := Unallocated]
  }

  /** Only the bitlists of devices `t` and `o` may differ. */
  predicate OtherBitlistsKept(a: seq<BackingDevice>, b: seq<BackingDevice>, t: nat, o: nat) {
    |a| == |b| && forall e :: 0 <= e < |a| && e != t && e != o ==> b[e].bitlist == a[e].bitlist
  }

  /** Marking more slots as used, or changing the entries' counters and
      last use, with the places and the geometry unchanged, keeps the
      placement invariant. */
  lemma PlacedKeepsUnderMarking(c0: seq<BlockInfo>, d0: seq<BackingDevice>, c1: seq<BlockInfo>,
                                d1: seq<BackingDevice>, cfg: Config)
    requires Placed(c0, d0, cfg) && SameLocations(c0, c1)
    requires SameLayout(d0, d1) && KeepsAllocated(d0, d1)
    ensures Placed(c1, d1, cfg)
  {
    forall k | 0 <= k < |c1|
      ensures LocationValid(c1[k].device, c1[k].offset, Layout(d1), cfg)
      ensures SlotOf(c1[k], Layout(d1), cfg) == SlotOf(c0[k], Layout(d0), cfg)
    {
      assert LocationValid(c0[k].device, c0[k].offset, Layout(d0), cfg);
    }
    assert MapOk(c1, Layout(d1), cfg);
    forall k | 0 <= k < |c1| && c1[k].device != 0
      ensures SlotByteOf(c1[k], d1, cfg) == Allocated
    {
      var e := c0[k].device - 1;
      assert Layout(d0)[e] == Layout(d1)[e];
      assert SlotByteOf(c0[k], d0, cfg) == Allocated;
    }
  }

  /** The conditions of a move of entry `cur` of `c0` to the entry `nb`:
      the target slot was free and is now marked, the old slot is freed,
      no other bitlist changes and the geometry stays. */
  predicate MoveOk(c0: seq<BlockInfo>, d0: seq<BackingDevice>, d1: seq<BackingDevice>, cur: nat, nb: BlockInfo,
                   cfg: Config) {
    && cur < |c0| && SameLayout(d0, d1)
    && 1 <= c0[cur].device && 1 <= nb.device <= |d0| && nb.device != c0[cur].device
    && MarkedAt(d0, d1, nb.device - 1, nb.offset, cfg)
    && ClearedAt(d0, d1, c0[cur].device - 1, c0[cur].offset, cfg)
    && OtherBitlistsKept(d0, d1, nb.device - 1, c0[cur].device - 1)
  }

  /** An allocated entry of a consistent map does not sit on a slot that
      is not ALLOCATED. */
  lemma NotOnFreeSlot(c0: seq<BlockInfo>, d0: seq<BackingDevice>, k: nat, t: nat, offset: nat, cfg: Config)
    requires Consistent(c0, d0, cfg) && k < |c0| && c0[k].device != 0
    requires t < |d0| && SlotInRange(d0[t], offset, cfg) && d0[t].bitlist[SlotIndex(d0[t], offset, cfg)] != Allocated
    ensures SlotOf(c0[k], Layout(d0), cfg) != (t + 1, SlotIndex(d0[t], offset, cfg))
  {
    var e := c0[k].device - 1;
    assert LocationValid(c0[k].device, c0[k].offset, Layout(d0), cfg);
    assert Layout(d0)[e] == Geo(d0[e]);
    assert SlotByteOf(c0[k], d0, cfg) == Allocated;
  }

  /** The slot of an allocated entry whose place is distinct from the two
      slots a move touches stays ALLOCATED. */
  lemma KeptAllocated(c0: seq<BlockInfo>, d0: seq<BackingDevice>, d1: seq<BackingDevice>, cur: nat,
                      nb: BlockInfo, k: nat, cfg: Config)
    requires Consistent(c0, d0, cfg) && MoveOk(c0, d0, d1, cur, nb, cfg)
    requires k < |c0| && k != cur && c0[k].device != 0
    requires SlotOf(c0[k], Layout(d0), cfg) != SlotOf(c0[cur], Layout(d0), cfg)
    ensures SlotInRange(d1[c0[k].device - 1], c0[k].offset, cfg) && SlotByteOf(c0[k], d1, cfg) == Allocated
  {
    var e := c0[k].device - 1;
    assert LocationValid(c0[k].device, c0[k].offset, Layout(d0), cfg);
    assert LocationValid(c0[cur].device, c0[cur].offset, Layout(d0), cfg);
    assert Layout(d0)[e] == Geo(d0[e]) && Layout(d1)[e] == Geo(d1[e]);
    assert SlotByteOf(c0[k], d0, cfg) == Allocated;
  }

  /** A move keeps the placement invariant. */
  lemma MoveKeepsPlaced(c0: seq<BlockInfo>, d0: seq<BackingDevice>, d1: seq<BackingDevice>, cur: nat,
                        nb: BlockInfo, cfg: Config)
    requires Placed(c0, d0, cfg) && MoveOk(c0, d0, d1, cur, nb, cfg)
    ensures Placed(c0[cur := nb], d1, cfg)
  {
    var c1 := c0[cur := nb];
    var t := nb.device - 1;
    var l0, l1 := Layout(d0), Layout(d1);
    var i := SlotIndex(d0[t], nb.offset, cfg);
    assert l0[t] == Geo(d0[t]);
    MapOkStore(c0, l0, cur, nb, cfg);
    assert SlotOf(nb, l1, cfg) == (nb.device, i);
    forall k | 0 <= k < |c0| && k != cur && c0[k].device != 0
      ensures SlotOf(c0[k], l0, cfg) != (nb.device, i)
      ensures SlotInRange(d1[c0[k].device - 1], c0[k].offset, cfg) && SlotByteOf(c0[k], d1, cfg) == Allocated
    {
      NotOnFreeSlot(c0, d0, k, t, nb.offset, cfg);
      assert LocationValid(c0[cur].device, c0[cur].offset, l0, cfg);
      assert SlotOf(c0[k], l0, cfg) != SlotOf(c0[cur], l0, cfg);
      KeptAllocated(c0, d0, d1, cur, nb, k, cfg);
    }
    assert Consistent(c1, d1, cfg);
  }

  /** Two allocated entries on one slot break exclusive placement. */
  lemma SharedNotExclusive(c: seq<BlockInfo>, d: seq<BackingDevice>, k1: nat, k2: nat, cfg: Config)
    requires k1 < |c| && k2 < |c| && k1 != k2 && c[k1].device != 0
    requires LocationValid(c[k1].device, c[k1].offset, Layout(d), cfg)
    requires LocationValid(c[k2].device, c[k2].offset, Layout(d), cfg)
    requires SlotOf(c[k1], Layout(d), cfg) == SlotOf(c[k2], Layout(d), cfg)
    ensures !Exclusive(c, d, cfg)
  {
  }

  /** A move of at most one tier: an unallocated block stays unallocated,
      tier 1 is the fastest. */
  predicate OneTier(before: nat, after: nat) {
    after == before || (before > 1 && after == before - 1) || (before >= 1 && after == before + 1)
  }
}
