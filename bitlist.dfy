/**
  The per-device allocation bitlist as values: first-fit allocation from
  the page holding the free cursor, marking, freeing with cursor rewind,
  counting, wiping, and relocation to a larger region.
 */
module Bitlist {
  import opened BtierTypes

  /** First byte at or after `from` that is not ALLOCATED. */
  function FirstFree(bits: seq<byte>, from: nat): (r: Option<nat>)
    ensures r.Some? ==> from <= r.value < |bits| && bits[r.value] != Allocated
    ensures r.Some? ==> forall j :: from <= j < r.value ==> bits[j] == Allocated
    ensures r.None? ==> forall j :: from <= j < |bits| ==> bits[j] == Allocated
    decreases |bits| - from
  {
    if from >= |bits| then None
    else if bits[from] != Allocated then Some(from)
    else FirstFree(bits, from + 1)
  }

  /** First index of the page holding the free cursor:
      `(free_offset >> PAGE_SHIFT) * PAGE_SIZE`. */
  function PageStart(freeOffset: nat, cfg: Config): (r: nat)
    ensures r <= freeOffset < r + cfg.pageSize
    ensures r % cfg.pageSize == 0
  {
    var p := cfg.pageSize;
    DivModSplit(freeOffset, p);
    MulDivCancel(freeOffset / p, p);
    (freeOffset / p) * p
  }

  lemma DivModSplit(a: nat, k: nat)
    requires k > 0
    ensures a == (a / k) * k + a % k && 0 <= a % k < k
  {
  }

  lemma DivModUnique(a: int, k: int, q: int, r: int)
    requires k > 0 && 0 <= r < k && a == q * k + r
    ensures a / k == q && a % k == r
  {
    var q', r' := a / k, a % k;
    assert a == q' * k + r';
    assert (q - q') * k == r' - r;
    if q > q' {
      MulAtLeast(q - q', k);
    } else if q < q' {
      MulAtLeast(q' - q, k);
    }
  }

  lemma MulAtLeast(a: int, k: int)
    requires a >= 1 && k > 0
    ensures a * k >= k
  {
  }

  lemma MulMono(a: nat, b: nat, k: nat)
    requires a <= b
    ensures a * k <= b * k
  {
  }

  lemma MulDivCancel(i: nat, k: nat)
    requires k > 0
    ensures (i * k) / k == i
    ensures (i * k) % k == 0
  {
    DivModUnique(i * k, k, i, 0);
  }

  /** What `allocate_dev` does to device `device`'s record and to `binfo`.
      The scan only runs while `binfo->device` is 0. A free byte found past
      the end of the data region ends the scan after `binfo->offset` has
      already been overwritten. */
  function AllocateSpec(bd: BackingDevice, binfo: BlockInfo, device: nat, cfg: Config)
    : (r: (BackingDevice, BlockInfo))
    ensures Geo(r.0) == Geo(bd)
    ensures binfo.device != 0 ==> r == (bd, binfo)
    ensures r.1.device == 0 ==> r.0 == bd
    ensures binfo.device == 0 && r.1.device == 0 ==>
              var ff := FirstFree(bd.bitlist, PageStart(bd.freeOffset, cfg));
              || (ff.None? && r.1 == binfo)
              || (ff.Some? && r.1 == binfo.(offset := bd.startOfData + ff.value * cfg.blkSize)
                  && r.1.offset + cfg.blkSize > bd.endOfData)
    ensures binfo.device == 0 && r.1.device != 0 ==>
              && r.1.device == device + 1
              && r.1 == binfo.(device := device + 1, offset := r.1.offset)
              && SlotInRange(bd, r.1.offset, cfg)
              && var i := SlotIndex(bd, r.1.offset, cfg);
              && r.1.offset == bd.startOfData + i * cfg.blkSize
              && r.1.offset + cfg.blkSize <= bd.endOfData
              && PageStart(bd.freeOffset, cfg) <= i
              && bd.bitlist[i] != Allocated
              && (forall j :: PageStart(bd.freeOffset, cfg) <= j < i ==> bd.bitlist[j] == Allocated)
              && r.0 == bd.(bitlist := bd.bitlist[i := Allocated], freeOffset := i, usedOffset := r.1.offset)
  {
    if binfo.device != 0 then (bd, binfo)
    else
      match FirstFree(bd.bitlist, PageStart(bd.freeOffset, cfg))
      case None => (bd, binfo)
      case Some(i) =>
        var off := bd.startOfData + i * cfg.blkSize;
        if off + cfg.blkSize > bd.endOfData then (bd, binfo.(offset := off))
        else
          MulDivCancel(i, cfg.blkSize);
          assert SlotIndex(bd, off, cfg) == i;
          (bd.(bitlist := bd.bitlist[i := Allocated], freeOffset := i, usedOffset := off),
           binfo.(device := device + 1, offset := off))
  }

  /** `mark_offset_as_used` on the bitlist: slot `index` becomes ALLOCATED. */
  function MarkUsed(bd: BackingDevice, index: nat): (r: BackingDevice)
    requires index < |bd.bitlist|
    ensures Geo(r) == Geo(bd) && r.bitlist[index] == Allocated
    ensures forall j :: 0 <= j < |bd.bitlist| && j != index ==> r.bitlist[j] == bd.bitlist[j]
    ensures r == bd.(bitlist := r.bitlist)
  {
    bd.(bitlist := bd.bitlist[index := Allocated])
  }

  /** `clear_dev_list` on the device the freed block lived on. */
  function ClearSlot(bd: BackingDevice, offset: nat, cfg: Config): (r: BackingDevice)
    requires SlotInRange(bd, offset, cfg)
    ensures Geo(r) == Geo(bd)
    ensures r.bitlist[SlotIndex(bd, offset, cfg)] == Unallocated
    ensures forall j :: 0 <= j < |bd.bitlist| && j != SlotIndex(bd, offset, cfg) ==> r.bitlist[j] == bd.bitlist[j]
    ensures r.freeOffset == if bd.freeOffset <= SlotIndex(bd, offset, cfg) then bd.freeOffset
                            else SlotIndex(bd, offset, cfg)
    ensures r == bd.(bitlist := r.bitlist, freeOffset := r.freeOffset)
  {
    var i := SlotIndex(bd, offset, cfg);
    bd.(bitlist := bd.bitlist[i := Unallocated],
        freeOffset := if bd.freeOffset > i then i else bd.freeOffset)
  }

  /** Number of ALLOCATED bytes. */
  function CountAllocated(bits: seq<byte>): (n: nat)
    ensures n <= |bits|
  {
    if bits == [] then 0
    else (if bits[|bits| - 1] == Allocated then 1 else 0) + CountAllocated(bits[..|bits| - 1])
  }

  lemma {:induction false} CountAllocatedAppend(a: seq<byte>, b: seq<byte>)
    ensures CountAllocated(a + b) == CountAllocated(a) + CountAllocated(b)
    decreases |b|
  {
    if b == [] {
      assert a + b == a;
    } else {
      assert (a + b)[..|a + b| - 1] == a + b[..|b| - 1];
      CountAllocatedAppend(a, b[..|b| - 1]);
    }
  }

  /** Writing one byte changes the count by at most the one byte. */
  lemma {:induction false} CountAllocatedUpdate(bits: seq<byte>, i: nat, v: byte)
    requires i < |bits|
    ensures CountAllocated(bits[i := v]) ==
            CountAllocated(bits) - (if bits[i] == Allocated then 1 else 0) + (if v == Allocated then 1 else 0)
  {
    assert bits == bits[..i] + [bits[i]] + bits[i + 1..];
    assert bits[i := v] == bits[..i] + [v] + bits[i + 1..];
    CountAllocatedAppend(bits[..i] + [bits[i]], bits[i + 1..]);
    CountAllocatedAppend(bits[..i], [bits[i]]);
    CountAllocatedAppend(bits[..i] + [v], bits[i + 1..]);
    CountAllocatedAppend(bits[..i], [v]);
    assert CountAllocated([v]) == (if v == Allocated then 1 else 0) by {
      assert [v][..0] == [];
    }
    assert CountAllocated([bits[i]]) == (if bits[i] == Allocated then 1 else 0) by {
      assert [bits[i]][..0] == [];
    }
  }

  /** Successful allocation takes exactly one more slot; a failed one none. */
  lemma AllocateCounts(bd: BackingDevice, binfo: BlockInfo, device: nat, cfg: Config)
    requires binfo.device == 0
    ensures var r := AllocateSpec(bd, binfo, device, cfg);
            CountAllocated(r.0.bitlist) == CountAllocated(bd.bitlist) + (if r.1.device != 0 then 1 else 0)
  {
    var r := AllocateSpec(bd, binfo, device, cfg);
    if r.1.device != 0 {
      CountAllocatedUpdate(bd.bitlist, SlotIndex(bd, r.1.offset, cfg), Allocated);
    }
  }

  /** Freeing an allocated slot gives exactly one slot back. */
  lemma ClearCounts(bd: BackingDevice, offset: nat, cfg: Config)
    requires SlotInRange(bd, offset, cfg)
    requires bd.bitlist[SlotIndex(bd, offset, cfg)] == Allocated
    ensures CountAllocated(ClearSlot(bd, offset, cfg).bitlist) + 1 == CountAllocated(bd.bitlist)
  {
    var i := SlotIndex(bd, offset, cfg);
    assert ClearSlot(bd, offset, cfg).bitlist == bd.bitlist[i := Unallocated];
    CountAllocatedUpdate(bd.bitlist, i, Unallocated);
  }

  /** Freeing the slot an allocation just took restores the bitlist when
      that slot held UNALLOCATED, and leaves the cursor at that slot. */
  lemma AllocateThenClear(bd: BackingDevice, binfo: BlockInfo, device: nat, cfg: Config)
    requires binfo.device == 0
    requires AllocateSpec(bd, binfo, device, cfg).1.device != 0
    ensures var r := AllocateSpec(bd, binfo, device, cfg);
            var i := SlotIndex(bd, r.1.offset, cfg);
            && SlotInRange(r.0, r.1.offset, cfg)
            && var c := ClearSlot(r.0, r.1.offset, cfg);
            && c.freeOffset == i
            && (bd.bitlist[i] == Unallocated ==> c.bitlist == bd.bitlist)
  {
    var r := AllocateSpec(bd, binfo, device, cfg);
    var i := SlotIndex(bd, r.1.offset, cfg);
    assert SlotIndex(r.0, r.1.offset, cfg) == i;
    var c := ClearSlot(r.0, r.1.offset, cfg);
    if bd.bitlist[i] == Unallocated {
      assert c.bitlist == bd.bitlist[i := Allocated][i := Unallocated];
      assert c.bitlist == bd.bitlist;
    }
  }

  /** `n` zero bytes. */
  function Zeros(n: nat): (z: seq<byte>)
    ensures |z| == n && forall j :: 0 <= j < n ==> z[j] == Unallocated
  {
    seq(n, _ => Unallocated)
  }

  lemma {:induction false} ZerosCountNothing(n: nat)
    ensures CountAllocated(Zeros(n)) == 0
  {
    if n > 0 {
      assert Zeros(n)[..n - 1] == Zeros(n - 1);
      ZerosCountNothing(n - 1);
    }
  }

  /** `wipe_bitlist` over the whole bitlist followed by the cursor reset of
      `repair_bitlists`. */
  function Wipe(bd: BackingDevice): (r: BackingDevice)
    ensures Geo(r) == Geo(bd) && CountAllocated(r.bitlist) == 0
    ensures forall j :: 0 <= j < |r.bitlist| ==> r.bitlist[j] == Unallocated
    ensures r == bd.(bitlist := r.bitlist, freeOffset := 0)
  {
    ZerosCountNothing(|bd.bitlist|);
    bd.(bitlist := Zeros(|bd.bitlist|), freeOffset := 0)
  }

  /** `migrate_bitlist`: refuses (-1) unless the new region ends at or past
      the recorded device size; otherwise copies the old bytes to the new
      place, zero-fills the added part and repoints the header. `ioOk`
      stands for the copy and the flush succeeding. */
  function MigrateBitlist(bd: BackingDevice, newStart: nat, newSize: nat, ioOk: bool)
    : (r: (int, BackingDevice))
    requires newSize >= |bd.bitlist|
    ensures r.0 == 0 || r.0 == -1
    ensures r.0 == 0 <==> newStart + newSize >= bd.deviceSize && ioOk
    ensures r.0 != 0 ==> r.1 == bd
    ensures r.0 == 0 ==>
              && |r.1.bitlist| == newSize
              && r.1.bitlist[..|bd.bitlist|] == bd.bitlist
              && (forall j :: |bd.bitlist| <= j < newSize ==> r.1.bitlist[j] == Unallocated)
              && CountAllocated(r.1.bitlist) == CountAllocated(bd.bitlist)
              && r.1.startOfBitlist == newStart && r.1.bitlistSize == newSize
              && r.1.magic.startOfBitlist == newStart && r.1.magic.bitlistSize == newSize
  {
    if newStart + newSize < bd.deviceSize then (-1, bd)
    else if !ioOk then (-1, bd)
    else
      var bits := bd.bitlist + Zeros(newSize - |bd.bitlist|);
      CountAllocatedAppend(bd.bitlist, Zeros(newSize - |bd.bitlist|));
      ZerosCountNothing(newSize - |bd.bitlist|);
      assert bits[..|bd.bitlist|] == bd.bitlist;
      (0, bd.(bitlist := bits, startOfBitlist := newStart, bitlistSize := newSize,
              magic := bd.magic.(startOfBitlist := newStart, bitlistSize := newSize)))
  }
}
