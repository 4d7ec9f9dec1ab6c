/**
  `repair_bitlists`, run at attach time when a device was not shut down
  cleanly: the bitlists of the attached devices are wiped and rebuilt from
  the block map, and map entries that cannot be followed are cleared.
 */
module Repair {
  import opened BtierTypes
  import opened Bitlist
  import opened Placement

  /** The first loop: every attached device's bitlist is zeroed and its
      free cursor reset. */
  function WipeAll(devs: seq<BackingDevice>): (r: seq<BackingDevice>)
    ensures |r| == |devs| && SameLayout(devs, r) && SameGeos(devs, r)
    ensures forall e :: 0 <= e < |devs| ==> r[e] == Wipe(devs[e])
  {
    var r := seq(|devs|, e requires 0 <= e < |devs| => Wipe(devs[e]));
    assert forall e | 0 <= e < |r| :: Layout(r)[e] == Layout(devs)[e];
    r
  }

  /** Two device tables whose devices have the same geometry, one by one. */
  predicate SameGeos(a: seq<BackingDevice>, b: seq<BackingDevice>) {
    |a| == |b| && forall e :: 0 <= e < |a| ==> Geo(a[e]) == Geo(b[e])
  }

  /** An allocated entry the repair keeps: its device is attached and a
      whole block from its offset fits in the device. */
  predicate Retained(b: BlockInfo, devs: seq<BackingDevice>, cfg: Config) {
    b.device != 0 && b.device <= |devs| && cfg.blkSize + b.offset <= devs[b.device - 1].deviceSize
  }

  /** Every entry the repair keeps lies in its device's data region. */
  predicate InData(cache: seq<BlockInfo>, devs: seq<BackingDevice>, cfg: Config) {
    forall k :: 0 <= k < |cache| && Retained(cache[k], devs, cfg) ==>
      cache[k].offset >= devs[cache[k].device - 1].startOfData
  }

  /** An entry as the repair leaves it: cleared unless unallocated or kept. */
  function Scrubbed(b: BlockInfo, devs: seq<BackingDevice>, cfg: Config): BlockInfo {
    if b.device != 0 && !Retained(b, devs, cfg) then ZeroBlockInfo else b
  }

  /** The bitlist index of a kept entry: `(offset - startofdata) >> BLK_SHIFT`. */
  function KeptSlot(b: BlockInfo, devs: seq<BackingDevice>, cfg: Config): nat
    requires 1 <= b.device <= |devs| && b.offset >= devs[b.device - 1].startOfData
  {
    SlotIndex(devs[b.device - 1], b.offset, cfg)
  }

  /** Entry `b`, if kept, names a slot of its device's bitlist. */
  predicate Fits(b: BlockInfo, devs: seq<BackingDevice>, cfg: Config) {
    Retained(b, devs, cfg) ==>
      b.offset >= devs[b.device - 1].startOfData && KeptSlot(b, devs, cfg) < |devs[b.device - 1].bitlist|
  }

  /** Every entry of `cache` fits. */
  predicate Indexable(cache: seq<BlockInfo>, devs: seq<BackingDevice>, cfg: Config) {
    forall k :: 0 <= k < |cache| ==> Fits(cache[k], devs, cfg)
  }

  /** Entry `k` is kept and sits on slot `i` of device `e` (0-based). */
  predicate KeptOn(cache: seq<BlockInfo>, devs: seq<BackingDevice>, k: nat, e: nat, i: nat, cfg: Config) {
    && k < |cache| && Retained(cache[k], devs, cfg) && cache[k].device == e + 1
    && cache[k].offset >= devs[e].startOfData && KeptSlot(cache[k], devs, cfg) == i
  }

  /** Some entry among the first `n` is kept on slot `i` of device `e`. */
  predicate Referenced(cache: seq<BlockInfo>, devs: seq<BackingDevice>, n: nat, e: nat, i: nat, cfg: Config) {
    exists k :: 0 <= k < n && KeptOn(cache, devs, k, e, i, cfg)
  }

  /** One more entry references a slot exactly when it is kept on it. */
  lemma ReferencedStep(cache: seq<BlockInfo>, devs: seq<BackingDevice>, n: nat, e: nat, i: nat, cfg: Config)
    requires 0 < n
    ensures Referenced(cache, devs, n, e, i, cfg) <==>
            Referenced(cache, devs, n - 1, e, i, cfg) || KeptOn(cache, devs, n - 1, e, i, cfg)
  {
    if Referenced(cache, devs, n, e, i, cfg) {
      var k :| 0 <= k < n && KeptOn(cache, devs, k, e, i, cfg);
      if k < n - 1 {
        assert Referenced(cache, devs, n - 1, e, i, cfg);
      }
    }
  }

  /** Retention, the slot and the reference of an entry depend only on the
      devices' geometry. */
  lemma GeoTransfer(b: BlockInfo, a: seq<BackingDevice>, a': seq<BackingDevice>, cfg: Config)
    requires SameGeos(a, a')
    ensures Retained(b, a, cfg) == Retained(b, a', cfg) && Fits(b, a, cfg) == Fits(b, a', cfg)
    ensures Scrubbed(b, a, cfg) == Scrubbed(b, a', cfg)
    ensures Retained(b, a, cfg) && b.offset >= a[b.device - 1].startOfData ==>
              b.offset >= a'[b.device - 1].startOfData && KeptSlot(b, a, cfg) == KeptSlot(b, a', cfg)
  {
    if 1 <= b.device <= |a| {
      assert Geo(a[b.device - 1]) == Geo(a'[b.device - 1]);
    }
  }

  /** `Referenced` depends only on the devices' geometry. */
  lemma ReferencedTransfer(cache: seq<BlockInfo>, a: seq<BackingDevice>, a': seq<BackingDevice>, n: nat,
                           e: nat, i: nat, cfg: Config)
    requires SameGeos(a, a') && e < |a|
    ensures Referenced(cache, a, n, e, i, cfg) == Referenced(cache, a', n, e, i, cfg)
  {
    assert Geo(a[e]) == Geo(a'[e]);
    if Referenced(cache, a, n, e, i, cfg) {
      var k :| 0 <= k < n && KeptOn(cache, a, k, e, i, cfg);
      GeoTransfer(cache[k], a, a', cfg);
      assert KeptOn(cache, a', k, e, i, cfg);
    }
    if Referenced(cache, a', n, e, i, cfg) {
      var k :| 0 <= k < n && KeptOn(cache, a', k, e, i, cfg);
      GeoTransfer(cache[k], a, a', cfg);
      assert KeptOn(cache, a, k, e, i, cfg);
    }
  }

  /** A kept entry inside the data region names a slot of its device. */
  lemma RetainedInRange(b: BlockInfo, devs: seq<BackingDevice>, cfg: Config)
    requires LayoutValid(Layout(devs), cfg) && Retained(b, devs, cfg)
    requires b.offset >= devs[b.device - 1].startOfData
    ensures SlotInRange(devs[b.device - 1], b.offset, cfg)
    ensures LocationValid(b.device, b.offset, Layout(devs), cfg)
    ensures KeptSlot(b, devs, cfg) < |devs[b.device - 1].bitlist|
  {
    var bd := devs[b.device - 1];
    LayoutValidAt(devs, b.device - 1, cfg);
    assert Layout(devs)[b.device - 1] == Geo(bd);
    DivBelow(b.offset - bd.startOfData, cfg.blkSize, |bd.bitlist|);
  }

  lemma DivBelow(x: nat, k: pos, n: nat)
    requires x + k <= n * k
    ensures x / k < n
  {
    DivModSplit(x, k);
    if x / k >= n {
      MulMono(n, x / k, k);
    }
  }

  /** On well-formed devices an entry in the data region fits. */
  lemma InDataIndexable(cache: seq<BlockInfo>, devs: seq<BackingDevice>, cfg: Config)
    requires LayoutValid(Layout(devs), cfg) && InData(cache, devs, cfg)
    ensures Indexable(cache, devs, cfg)
  {
    forall k | 0 <= k < |cache| && Retained(cache[k], devs, cfg)
      ensures KeptSlot(cache[k], devs, cfg) < |devs[cache[k].device - 1].bitlist|
    {
      RetainedInRange(cache[k], devs, cfg);
    }
  }

  /** What the second loop works on: the block map, the devices and the
      `free_offset` it writes through the stale device index. */
  datatype RepairState = RepairState(cache: seq<BlockInfo>, devs: seq<BackingDevice>, stray: nat)

  /** One iteration of the second loop, at entry `k`: an entry on a device
      that is not attached, or one whose block does not fit in its device,
      is cleared; a kept entry's slot is marked ALLOCATED and its index
      written to the stray `free_offset`. */
  function RepairStep(p: RepairState, k: nat, cfg: Config): (r: RepairState)
    requires k < |p.cache| && Fits(p.cache[k], p.devs, cfg)
    ensures |r.cache| == |p.cache| && SameGeos(p.devs, r.devs)
    ensures forall j :: 0 <= j < |p.cache| && j != k ==> r.cache[j] == p.cache[j]
    ensures r.cache[k] == Scrubbed(p.cache[k], p.devs, cfg)
    ensures !Retained(p.cache[k], p.devs, cfg) ==> r.devs == p.devs && r.stray == p.stray
  {
    var b := p.cache[k];
    if !Retained(b, p.devs, cfg) then p.(cache := p.cache[k := Scrubbed(b, p.devs, cfg)])
    else
      var e := b.device - 1;
      var i := KeptSlot(b, p.devs, cfg);
      p.(devs := p.devs[e := MarkUsed(p.devs[e], i)], stray := i)
  }

  /** A kept entry's step marks its slot and writes its index to the stray
      `free_offset`; no other byte and no other field of a device changes. */
  lemma StepMarks(p: RepairState, k: nat, cfg: Config)
    requires k < |p.cache| && Fits(p.cache[k], p.devs, cfg) && Retained(p.cache[k], p.devs, cfg)
    ensures var r := RepairStep(p, k, cfg);
            var e := p.cache[k].device - 1;
            var i := KeptSlot(p.cache[k], p.devs, cfg);
            && r.stray == i
            && r.devs[e] == p.devs[e].(bitlist := r.devs[e].bitlist)
            && (forall e' :: 0 <= e' < |p.devs| && e' != e ==> r.devs[e'] == p.devs[e'])
            && r.devs[e].bitlist[i] == Allocated
            && forall j :: 0 <= j < |p.devs[e].bitlist| && j != i ==> r.devs[e].bitlist[j] == p.devs[e].bitlist[j]
  {
  }

  /** The map once the second loop has visited the first `n` entries. */
  function ScrubbedUpTo(cache: seq<BlockInfo>, devs: seq<BackingDevice>, n: nat, cfg: Config)
    : (r: seq<BlockInfo>)
    ensures |r| == |cache|
    ensures forall k :: 0 <= k < |cache| ==> r[k] == if k < n then Scrubbed(cache[k], devs, cfg) else cache[k]
  {
    seq(|cache|, k requires 0 <= k < |cache| => if k < n then Scrubbed(cache[k], devs, cfg) else cache[k])
  }

  /** Device `e`'s bitlist once the first `n` entries are visited: a slot
      some kept entry among them sits on is ALLOCATED, any other is as it
      was. */
  function MarkedBits(cache: seq<BlockInfo>, devs: seq<BackingDevice>, n: nat, e: nat, cfg: Config)
    : (r: seq<byte>)
    requires e < |devs|
    ensures |r| == |devs[e].bitlist|
    ensures forall i :: 0 <= i < |r| ==>
              r[i] == if Referenced(cache, devs, n, e, i, cfg) then Allocated else devs[e].bitlist[i]
  {
    var bl := devs[e].bitlist;
    seq(|bl|, i requires 0 <= i < |bl| => if Referenced(cache, devs, n, e, i, cfg) then Allocated else bl[i])
  }

  /** The devices once the first `n` entries are visited: only bitlists
      change. */
  function MarkedUpTo(cache: seq<BlockInfo>, devs: seq<BackingDevice>, n: nat, cfg: Config)
    : (r: seq<BackingDevice>)
    ensures |r| == |devs| && SameGeos(devs, r)
    ensures forall e :: 0 <= e < |devs| ==> r[e] == devs[e].(bitlist := MarkedBits(cache, devs, n, e, cfg))
  {
    seq(|devs|, e requires 0 <= e < |devs| => devs[e].(bitlist := MarkedBits(cache, devs, n, e, cfg)))
  }

  /** The last of the first `n` entries that the repair keeps. */
  function LastKept(cache: seq<BlockInfo>, devs: seq<BackingDevice>, n: nat, cfg: Config): (r: Option<nat>)
    requires n <= |cache|
    ensures r.Some? ==> r.value < n && Retained(cache[r.value], devs, cfg)
    ensures r.Some? ==> forall j :: r.value < j < n ==> !Retained(cache[j], devs, cfg)
    ensures r.None? ==> forall j :: 0 <= j < n ==> !Retained(cache[j], devs, cfg)
  {
    if n == 0 then None
    else if Retained(cache[n - 1], devs, cfg) then Some(n - 1)
    else LastKept(cache, devs, n - 1, cfg)
  }

  /** The stray `free_offset` once the first `n` entries are visited: the
      slot index of the last kept one, or as it was when none is kept. */
  function StrayAfter(cache: seq<BlockInfo>, devs: seq<BackingDevice>, n: nat, stray: nat, cfg: Config): nat
    requires n <= |cache| && Indexable(cache, devs, cfg)
  {
    match LastKept(cache, devs, n, cfg)
    case None => stray
    case Some(k) => KeptSlot(cache[k], devs, cfg)
  }

  /** The state once the second loop has visited the first `n` entries. */
  function Rebuilt(cache: seq<BlockInfo>, devs: seq<BackingDevice>, n: nat, stray: nat, cfg: Config)
    : RepairState
    requires n <= |cache| && Indexable(cache, devs, cfg)
  {
    RepairState(ScrubbedUpTo(cache, devs, n, cfg), MarkedUpTo(cache, devs, n, cfg),
                StrayAfter(cache, devs, n, stray, cfg))
  }

  /** Before the loop nothing has changed. */
  lemma RebuiltNone(cache: seq<BlockInfo>, devs: seq<BackingDevice>, stray: nat, cfg: Config)
    requires Indexable(cache, devs, cfg)
    ensures Rebuilt(cache, devs, 0, stray, cfg) == RepairState(cache, devs, stray)
  {
    var r := Rebuilt(cache, devs, 0, stray, cfg);
    assert r.cache == cache;
    forall e | 0 <= e < |devs|
      ensures r.devs[e] == devs[e]
    {
      assert MarkedBits(cache, devs, 0, e, cfg) == devs[e].bitlist;
    }
  }

  /** One iteration of the loop, on the state after the first `n` entries,
      gives the state after the first `n + 1`. */
  lemma RebuildStep(cache: seq<BlockInfo>, devs: seq<BackingDevice>, n: nat, stray: nat, cfg: Config)
    requires n < |cache| && Indexable(cache, devs, cfg)
    ensures var p := Rebuilt(cache, devs, n, stray, cfg);
            && p.cache[n] == cache[n] && Fits(p.cache[n], p.devs, cfg)
            && RepairStep(p, n, cfg) == Rebuilt(cache, devs, n + 1, stray, cfg)
  {
    var p := Rebuilt(cache, devs, n, stray, cfg);
    GeoTransfer(cache[n], devs, p.devs, cfg);
    var r := RepairStep(p, n, cfg);
    var q := Rebuilt(cache, devs, n + 1, stray, cfg);
    StepCache(cache, devs, n, p, cfg);
    StepDevs(cache, devs, n, p, cfg);
    StepStray(cache, devs, n, stray, cfg);
    assert r == q;
  }

  lemma StepCache(cache: seq<BlockInfo>, devs: seq<BackingDevice>, n: nat, p: RepairState, cfg: Config)
    requires n < |cache| && SameGeos(devs, p.devs) && p.cache == ScrubbedUpTo(cache, devs, n, cfg)
    requires Fits(p.cache[n], p.devs, cfg)
    ensures RepairStep(p, n, cfg).cache == ScrubbedUpTo(cache, devs, n + 1, cfg)
  {
    GeoTransfer(cache[n], devs, p.devs, cfg);
    var a, b := RepairStep(p, n, cfg).cache, ScrubbedUpTo(cache, devs, n + 1, cfg);
    assert forall k | 0 <= k < |a| :: a[k] == b[k];
  }

  lemma StepDevs(cache: seq<BlockInfo>, devs: seq<BackingDevice>, n: nat, p: RepairState, cfg: Config)
    requires n < |cache| && n < |p.cache| && p.devs == MarkedUpTo(cache, devs, n, cfg) && p.cache[n] == cache[n]
    requires Fits(cache[n], devs, cfg) && Fits(p.cache[n], p.devs, cfg)
    ensures RepairStep(p, n, cfg).devs == MarkedUpTo(cache, devs, n + 1, cfg)
  {
    var b := cache[n];
    GeoTransfer(b, devs, p.devs, cfg);
    var a, q := RepairStep(p, n, cfg).devs, MarkedUpTo(cache, devs, n + 1, cfg);
    forall e | 0 <= e < |devs|
      ensures a[e] == q[e]
    {
      var x, y := MarkedBits(cache, devs, n, e, cfg), MarkedBits(cache, devs, n + 1, e, cfg);
      forall i | 0 <= i < |y|
        ensures Referenced(cache, devs, n + 1, e, i, cfg) <==>
                  Referenced(cache, devs, n, e, i, cfg) || KeptOn(cache, devs, n, e, i, cfg)
      {
        ReferencedStep(cache, devs, n + 1, e, i, cfg);
      }
      if Retained(b, devs, cfg) && e == b.device - 1 {
        var i0 := KeptSlot(b, devs, cfg);
        assert a[e].bitlist == x[i0 := Allocated];
        assert forall i | 0 <= i < |y| :: y[i] == x[i0 := Allocated][i];
      } else {
        assert a[e] == p.devs[e];
        assert forall i | 0 <= i < |y| :: y[i] == x[i];
      }
    }
  }

  lemma StepStray(cache: seq<BlockInfo>, devs: seq<BackingDevice>, n: nat, stray: nat, cfg: Config)
    requires n < |cache| && Indexable(cache, devs, cfg)
    ensures var p := Rebuilt(cache, devs, n, stray, cfg);
            RepairStep(p, n, cfg).stray == StrayAfter(cache, devs, n + 1, stray, cfg)
  {
    var p := Rebuilt(cache, devs, n, stray, cfg);
    GeoTransfer(cache[n], devs, p.devs, cfg);
  }

  /** The whole repair: wipe, then rebuild over every entry. */
  function Repaired(cache: seq<BlockInfo>, devs: seq<BackingDevice>, stray: nat, cfg: Config): RepairState
    requires Indexable(cache, WipeAll(devs), cfg)
  {
    Rebuilt(cache, WipeAll(devs), |cache|, stray, cfg)
  }

  /** Entries that fit the devices fit them wiped. */
  lemma IndexableTransfer(cache: seq<BlockInfo>, a: seq<BackingDevice>, a': seq<BackingDevice>, cfg: Config)
    requires SameGeos(a, a') && Indexable(cache, a, cfg)
    ensures Indexable(cache, a', cfg)
  {
    forall k | 0 <= k < |cache|
      ensures Fits(cache[k], a', cfg)
    {
      GeoTransfer(cache[k], a, a', cfg);
    }
  }

  /** After the repair every entry left allocated names an ALLOCATED slot of
      an attached device, every free cursor is 0, and a slot is ALLOCATED
      exactly when a kept entry sits on it. */
  lemma RepairConsistent(cache: seq<BlockInfo>, devs: seq<BackingDevice>, stray: nat, cfg: Config)
    requires Shaped(devs, cfg) && InData(cache, devs, cfg)
    ensures Indexable(cache, WipeAll(devs), cfg)
    ensures var r := Repaired(cache, devs, stray, cfg);
            && Shaped(r.devs, cfg) && SameLayout(devs, r.devs) && Consistent(r.cache, r.devs, cfg)
            && (forall k :: 0 <= k < |cache| ==> r.cache[k] == Scrubbed(cache[k], devs, cfg))
            && (forall e :: 0 <= e < |devs| ==> r.devs[e].freeOffset == 0)
            && forall e, i :: 0 <= e < |devs| && 0 <= i < |devs[e].bitlist| ==>
                 (r.devs[e].bitlist[i] == Allocated <==> Referenced(cache, devs, |cache|, e, i, cfg))
  {
    var w := WipeAll(devs);
    InDataIndexable(cache, devs, cfg);
    IndexableTransfer(cache, devs, w, cfg);
    var r := Repaired(cache, devs, stray, cfg);
    forall k | 0 <= k < |cache|
      ensures r.cache[k] == Scrubbed(cache[k], devs, cfg)
    {
      GeoTransfer(cache[k], devs, w, cfg);
    }
    forall e | 0 <= e < |w|
      ensures r.devs[e] == devs[e].(bitlist := r.devs[e].bitlist, freeOffset := 0)
      ensures |r.devs[e].bitlist| == |devs[e].bitlist|
      ensures forall i :: 0 <= i < |devs[e].bitlist| ==>
                (r.devs[e].bitlist[i] == Allocated <==> Referenced(cache, devs, |cache|, e, i, cfg))
    {
      assert w[e] == Wipe(devs[e]);
      forall i | 0 <= i < |devs[e].bitlist|
        ensures r.devs[e].bitlist[i] == Allocated <==> Referenced(cache, devs, |cache|, e, i, cfg)
      {
        ReferencedTransfer(cache, devs, w, |cache|, e, i, cfg);
      }
    }
    RepairedFacts(cache, devs, r, cfg);
  }

  /** The placement facts of the repair's result, from the scrubbed map
      and the rebuilt bitlists. */
  lemma RepairedFacts(cache: seq<BlockInfo>, devs: seq<BackingDevice>, r: RepairState, cfg: Config)
    requires Shaped(devs, cfg) && InData(cache, devs, cfg)
    requires |r.cache| == |cache| && SameGeos(devs, r.devs)
    requires forall k :: 0 <= k < |cache| ==> r.cache[k] == Scrubbed(cache[k], devs, cfg)
    requires forall e, i :: 0 <= e < |devs| && 0 <= i < |devs[e].bitlist| ==>
               (r.devs[e].bitlist[i] == Allocated <==> Referenced(cache, devs, |cache|, e, i, cfg))
    ensures Shaped(r.devs, cfg) && SameLayout(devs, r.devs) && Consistent(r.cache, r.devs, cfg)
  {
    var l := Layout(devs);
    assert Layout(r.devs) == l by {
      forall e | 0 <= e < |devs|
        ensures Layout(r.devs)[e] == l[e]
      {
        assert Geo(devs[e]) == Geo(r.devs[e]);
      }
    }
    forall k | 0 <= k < |cache| && r.cache[k].device != 0
      ensures LocationValid(r.cache[k].device, r.cache[k].offset, l, cfg)
      ensures SlotByteOf(r.cache[k], r.devs, cfg) == Allocated
    {
      KeptReferenced(cache, devs, r, k, cfg);
    }
  }

  /** A kept entry names a slot it references. */
  lemma KeptReferenced(cache: seq<BlockInfo>, devs: seq<BackingDevice>, r: RepairState, k: nat, cfg: Config)
    requires Shaped(devs, cfg) && InData(cache, devs, cfg)
    requires |r.cache| == |cache| && SameGeos(devs, r.devs) && Layout(r.devs) == Layout(devs)
    requires k < |cache| && r.cache[k] == Scrubbed(cache[k], devs, cfg) && r.cache[k].device != 0
    requires forall e, i :: 0 <= e < |devs| && 0 <= i < |devs[e].bitlist| ==>
               (r.devs[e].bitlist[i] == Allocated <==> Referenced(cache, devs, |cache|, e, i, cfg))
    ensures LocationValid(r.cache[k].device, r.cache[k].offset, Layout(r.devs), cfg)
    ensures 1 <= r.cache[k].device <= |r.devs| && SlotInRange(r.devs[r.cache[k].device - 1], r.cache[k].offset, cfg)
    ensures SlotByteOf(r.cache[k], r.devs, cfg) == Allocated
  {
    var b := cache[k];
    assert r.cache[k] == b && Retained(b, devs, cfg);
    RetainedInRange(b, devs, cfg);
    var e := b.device - 1;
    assert Geo(devs[e]) == Geo(r.devs[e]);
    var i := KeptSlot(b, devs, cfg);
    assert KeptOn(cache, devs, k, e, i, cfg);
    assert Referenced(cache, devs, |cache|, e, i, cfg);
  }

  /** The repair does not separate entries that share a slot: two kept
      entries on the same slot leave the map without exclusive placement. */
  lemma RepairKeepsSharing(cache: seq<BlockInfo>, devs: seq<BackingDevice>, stray: nat, k1: nat, k2: nat,
                           cfg: Config)
    requires Shaped(devs, cfg) && InData(cache, devs, cfg)
    requires k1 < |cache| && k2 < |cache| && k1 != k2
    requires Retained(cache[k1], devs, cfg) && Retained(cache[k2], devs, cfg)
    requires cache[k1].device == cache[k2].device
    requires KeptSlot(cache[k1], devs, cfg) == KeptSlot(cache[k2], devs, cfg)
    ensures Indexable(cache, WipeAll(devs), cfg)
    ensures !Exclusive(Repaired(cache, devs, stray, cfg).cache, Repaired(cache, devs, stray, cfg).devs, cfg)
  {
    RepairConsistent(cache, devs, stray, cfg);
    var r := Repaired(cache, devs, stray, cfg);
    assert r.cache[k1] == cache[k1] && r.cache[k2] == cache[k2];
    SharedKept(r.cache, r.devs, devs, k1, k2, cfg);
  }

  /** Two entries kept on one slot of `devs` share a slot of any devices
      with the same layout. */
  lemma SharedKept(c: seq<BlockInfo>, d: seq<BackingDevice>, devs: seq<BackingDevice>, k1: nat, k2: nat,
                   cfg: Config)
    requires Shaped(devs, cfg) && Layout(d) == Layout(devs)
    requires k1 < |c| && k2 < |c| && k1 != k2
    requires Retained(c[k1], devs, cfg) && Retained(c[k2], devs, cfg) && c[k1].device == c[k2].device
    requires c[k1].offset >= devs[c[k1].device - 1].startOfData && c[k2].offset >= devs[c[k2].device - 1].startOfData
    requires KeptSlot(c[k1], devs, cfg) == KeptSlot(c[k2], devs, cfg)
    ensures !Exclusive(c, d, cfg)
  {
    var e := c[k1].device - 1;
    assert Layout(devs)[e] == Geo(devs[e]);
    RetainedInRange(c[k1], devs, cfg);
    RetainedInRange(c[k2], devs, cfg);
    SharedNotExclusive(c, d, k1, k2, cfg);
  }

  /** Which entries are kept depends only on the devices' geometry. */
  lemma {:induction false} LastKeptTransfer(cache: seq<BlockInfo>, a: seq<BackingDevice>, a': seq<BackingDevice>,
                                            n: nat, cfg: Config)
    requires n <= |cache| && SameGeos(a, a')
    ensures LastKept(cache, a, n, cfg) == LastKept(cache, a', n, cfg)
  {
    if n > 0 {
      GeoTransfer(cache[n - 1], a, a', cfg);
      LastKeptTransfer(cache, a, a', n - 1, cfg);
    }
  }

  /** The repair leaves the stray `free_offset` at the slot index of the
      last entry it keeps, or as it was when it keeps none. */
  lemma RepairedStray(cache: seq<BlockInfo>, devs: seq<BackingDevice>, stray: nat, cfg: Config)
    requires Shaped(devs, cfg) && InData(cache, devs, cfg)
    ensures Indexable(cache, devs, cfg) && Indexable(cache, WipeAll(devs), cfg)
    ensures LastKept(cache, devs, |cache|, cfg).None? ==> Repaired(cache, devs, stray, cfg).stray == stray
    ensures LastKept(cache, devs, |cache|, cfg).Some? ==>
              var k := LastKept(cache, devs, |cache|, cfg).value;
              && k < |cache| && 1 <= cache[k].device <= |devs| && cache[k].offset >= devs[cache[k].device - 1].startOfData
              && KeptSlot(cache[k], devs, cfg) == Repaired(cache, devs, stray, cfg).stray
  {
    var w := WipeAll(devs);
    InDataIndexable(cache, devs, cfg);
    IndexableTransfer(cache, devs, w, cfg);
    LastKeptTransfer(cache, devs, w, |cache|, cfg);
    var lk := LastKept(cache, devs, |cache|, cfg);
    if lk.Some? {
      var k := lk.value;
      assert Fits(cache[k], devs, cfg);
      GeoTransfer(cache[k], devs, w, cfg);
    }
  }

}
