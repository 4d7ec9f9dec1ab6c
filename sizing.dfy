/**
  Size arithmetic of the driver: the sector shift, the discard range of a
  block, the 512-byte rounding of a backing file's size, the logical block
  size fallback, and the sums and guards used when a backing device grows.
 */
module Sizing {
  import opened BtierTypes

  function Pow2(k: nat): (r: nat)
    ensures r >= 1
  {
    if k == 0 then 1 else 2 * Pow2(k - 1)
  }

  /** floor(log2(s)), with 0 for 0 and 1: the shift `sector_divide` finds. */
  function Log2(s: nat): nat {
    if s <= 1 then 0 else 1 + Log2(s / 2)
  }

  /** Number of significant bits of `s`. */
  function BitLength(s: nat): nat {
    if s == 0 then 0 else 1 + BitLength(s / 2)
  }

  /** `x >> k`. */
  function ShiftRight(x: nat, k: nat): nat {
    if k == 0 then x else ShiftRight(x / 2, k - 1)
  }

  lemma BitLengthLog2(s: nat)
    requires s >= 1
    ensures BitLength(s) == Log2(s) + 1
  {
  }

  lemma Log2OfPow2(k: nat)
    ensures Log2(Pow2(k)) == k
  {
    if k > 0 {
      assert Pow2(k) / 2 == Pow2(k - 1);
    }
  }

  /** `x >> k` is the floor of x / 2^k. */
  lemma {:induction false} ShiftRightBounds(x: nat, k: nat)
    ensures ShiftRight(x, k) * Pow2(k) <= x < (ShiftRight(x, k) + 1) * Pow2(k)
  {
    if k > 0 {
      var y := x / 2;
      var q := ShiftRight(y, k - 1);
      var p := Pow2(k - 1);
      ShiftRightBounds(y, k - 1);
      assert Pow2(k) == 2 * p;
      Doubling(q, p);
    }
  }

  lemma Doubling(q: nat, p: nat)
    ensures q * (2 * p) == 2 * (q * p)
    ensures (q + 1) * (2 * p) == 2 * (q * p) + 2 * p
    ensures (q + 1) * p == q * p + p
  {
  }

  /** `sector_divide`: the do-while loop finds the bit length of the sector
      size, one less is the shift, and the size is shifted right by it.
      For a power-of-two sector size this is the number of whole sectors. */
  method SectorDivide(size: nat, sectorSize: nat) returns (r: nat)
    ensures r == ShiftRight(size, Log2(sectorSize))
    ensures sectorSize == Pow2(Log2(sectorSize)) ==> r * sectorSize <= size < (r + 1) * sectorSize
  {
    var bitShift: nat := 0;
    var s := sectorSize;
    bitShift := bitShift + 1;
    s := s / 2;
    if sectorSize >= 2 {
      BitLengthLog2(sectorSize / 2);
    }
    while s != 0
      invariant bitShift >= 1
      invariant bitShift - 1 + BitLength(s) == Log2(sectorSize)
      decreases s
    {
      bitShift := bitShift + 1;
      s := s / 2;
    }
    bitShift := bitShift - 1;
    r := ShiftRight(size, bitShift);
    ShiftRightBounds(size, bitShift);
  }

  /** The sector range `discard_on_real_device` hands to the device for the
      block at `offset`: the first sector is rounded up, the end sector
      rounded down, and nothing is discarded when no whole sector fits. */
  function DiscardRange(offset: nat, sectorSize: nat, blkSize: nat): (r: Option<(nat, nat)>)
    ensures r.Some? ==> r.value.1 >= 1
  {
    var k := Log2(sectorSize);
    var first := ShiftRight(offset, k);
    var sector := if first * sectorSize < offset then first + 1 else first;
    var endsector := ShiftRight(offset + blkSize, k);
    if endsector <= sector then None else Some((sector, endsector - sector))
  }

  /** For a power-of-two sector size the discarded sectors are exactly the
      whole sectors inside the block: they start at or after the block,
      end at or before its end, and no whole sector of the block is left
      out at either side. */
  lemma DiscardWithinBlock(offset: nat, sectorSize: nat, blkSize: nat)
    requires sectorSize == Pow2(Log2(sectorSize))
    requires DiscardRange(offset, sectorSize, blkSize).Some?
    ensures var (sector, n) := DiscardRange(offset, sectorSize, blkSize).value;
            && offset <= sector * sectorSize < offset + sectorSize
            && (sector + n) * sectorSize <= offset + blkSize < (sector + n + 1) * sectorSize
  {
    var k := Log2(sectorSize);
    ShiftRightBounds(offset, k);
    ShiftRightBounds(offset + blkSize, k);
    var first := ShiftRight(offset, k);
    assert (first + 1) * sectorSize == first * sectorSize + sectorSize;
  }

  /** `tier_get_size`: the file size with its low nine bits cleared, i.e.
      the largest multiple of 512 not above it. */
  function RoundDownToSector(size: nat): (r: nat)
    ensures r % 512 == 0 && r <= size < r + 512
  {
    size - size % 512
  }

  /** The logical block size `tier_device_register` keeps: any value outside
      512..4096 or not a power of two falls back to 512. */
  function LogicalBlockSize(lbs: bv32): (r: bv32)
    ensures r == lbs || r == 512
  {
    if lbs < 512 || lbs > 4096 || (lbs & (lbs - 1)) != 0 then 512 else lbs
  }

  /** Exactly the four powers of two from 512 to 4096 are kept, so the
      registered size is always one of them. */
  lemma LogicalBlockSizeRange(lbs: bv32)
    ensures LogicalBlockSize(lbs) == lbs <==> lbs == 512 || lbs == 1024 || lbs == 2048 || lbs == 4096
    ensures var r := LogicalBlockSize(lbs); r == 512 || r == 1024 || r == 2048 || r == 4096
  {
  }

  /** Sum of the usable sizes `calc_new_devsize` adds up over the first `k`
      devices: every device loses the playground and the resized one `cdev`,
      counted at its new size, also loses the header. */
  function UsableSum(sizes: seq<nat>, k: nat, cdev: nat, cur: nat, playground: nat, header: nat): int
    requires k <= |sizes|
  {
    if k == 0 then 0
    else UsableSum(sizes, k - 1, cdev, cur, playground, header)
         + (if k - 1 == cdev then cur - playground - header else sizes[k - 1] - playground)
  }

  lemma ModAdd(a: int, b: int)
    ensures WrapU64(WrapU64(a) + WrapU64(b)) == WrapU64(a + b)
  {
    var m := U64;
    assert a == (a / m) * m + a % m;
    assert b == (b / m) * m + b % m;
    assert a + b == (a % m + b % m) + (a / m + b / m) * m;
    ModMultiple(a % m + b % m, a / m + b / m);
  }

  lemma ModMultiple(x: int, q: int)
    ensures (x + q * U64) % U64 == x % U64
  {
  }

  /** `calc_new_devsize`: the u64 accumulation of the usable sizes over all
      attached devices, `sizes` being their recorded device sizes. */
  method CalcNewDevsize(sizes: seq<nat>, cdev: nat, curdevsize: nat, playground: nat, header: nat)
    returns (devsize: nat)
    ensures devsize == WrapU64(UsableSum(sizes, |sizes|, cdev, curdevsize, playground, header))
  {
    devsize := 0;
    var i := 0;
    while i < |sizes|
      invariant i <= |sizes|
      invariant devsize == WrapU64(UsableSum(sizes, i, cdev, curdevsize, playground, header))
    {
      var term := if i == cdev then curdevsize - playground - header else sizes[i] - playground;
      ModAdd(UsableSum(sizes, i, cdev, curdevsize, playground, header), term);
      devsize := WrapU64(devsize + WrapU64(term));
      i := i + 1;
    }
  }

  /** When every device is at least as large as what it loses, the usable
      sum is non-negative. */
  lemma {:induction false} UsableSumNonNegative(sizes: seq<nat>, k: nat, cdev: nat, cur: nat, playground: nat, header: nat)
    requires k <= |sizes|
    requires cur >= playground + header
    requires forall i :: 0 <= i < |sizes| ==> sizes[i] >= playground
    ensures UsableSum(sizes, k, cdev, cur, playground, header) >= 0
  {
    if k > 0 {
      UsableSumNonNegative(sizes, k - 1, cdev, cur, playground, header);
    }
  }

  /** Sum of the bitlist sizes of the first `k` devices, the resized one
      `cdev` counted with its new bitlist size. */
  function BitlistSum(sizes: seq<nat>, k: nat, cdev: nat, cur: nat): nat
    requires k <= |sizes|
  {
    if k == 0 then 0
    else BitlistSum(sizes, k - 1, cdev, cur) + (if k - 1 == cdev then cur else sizes[k - 1])
  }

  /** `new_total_bitlistsize`: the u64 sum of the bitlist sizes with the
      resized device's replaced by its new one. */
  method NewTotalBitlistsize(sizes: seq<nat>, cdev: nat, curbitlistsize: nat) returns (total: nat)
    ensures total == WrapU64(BitlistSum(sizes, |sizes|, cdev, curbitlistsize))
  {
    total := 0;
    var i := 0;
    while i < |sizes|
      invariant i <= |sizes|
      invariant total == WrapU64(BitlistSum(sizes, i, cdev, curbitlistsize))
    {
      var term := if i == cdev then curbitlistsize else sizes[i];
      ModAdd(BitlistSum(sizes, i, cdev, curbitlistsize), term);
      total := WrapU64(total + WrapU64(term));
      i := i + 1;
    }
  }

  /** Replacing one device's bitlist size changes the total by the
      difference and nothing else. */
  lemma {:induction false} BitlistSumReplace(sizes: seq<nat>, k: nat, cdev: nat, cur: nat)
    requires k <= |sizes| && cdev < |sizes|
    ensures BitlistSum(sizes, k, cdev, cur) ==
            BitlistSum(sizes, k, |sizes|, 0) + (if cdev < k then cur - sizes[cdev] else 0)
  {
    if k > 0 {
      BitlistSumReplace(sizes, k - 1, cdev, cur);
    }
  }

  /** What `resize_tier` decides for one device. */
  datatype ResizeVerdict = Unchanged | TooSmallChange | NoRoom | Resize

  /** The three skip conditions of `resize_tier`: the size did not change;
      the u64 growth is smaller than the new bitlist; the new size does not
      hold the old size, the new block list, the new bitlist and one block
      (an unsigned 64-bit comparison). */
  function ResizeGuard(cur: nat, oldSize: nat, newBitlist: nat, newBlocklist: nat, blkSize: nat): (v: ResizeVerdict)
    requires cur < U64
    ensures v == Resize ==> cur != oldSize
  {
    if oldSize == cur then Unchanged
    else if WrapU64(cur - oldSize) < newBitlist then TooSmallChange
    else if cur < WrapU64(oldSize + newBlocklist + newBitlist + blkSize) then NoRoom
    else Resize
  }

  /** A device that shrank is never resized, although the wrapped growth of
      a shrink passes the second guard: the third one catches it. A device
      that is resized has room for the new lists and a block. */
  lemma ResizeOnlyGrows(cur: nat, oldSize: nat, newBitlist: nat, newBlocklist: nat, blkSize: nat)
    requires cur < U64 && oldSize + newBlocklist + newBitlist + blkSize < U64
    ensures ResizeGuard(cur, oldSize, newBitlist, newBlocklist, blkSize) == Resize <==>
              cur >= oldSize + newBlocklist + newBitlist + blkSize && cur != oldSize && cur - oldSize >= newBitlist
    ensures cur < oldSize ==> ResizeGuard(cur, oldSize, newBitlist, newBlocklist, blkSize) != Resize
  {
  }
}
