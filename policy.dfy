/**
  The migration decisions: which tier a block should move to according
  to its hit counts, its age and the per-device averages, and the
  bookkeeping of the per-device counters around a migration.
 */
module Policy {
  import opened BtierTypes

  /** Hits of a block: reads and writes count alike. */
  function Hits(b: BlockInfo): nat {
    b.readcount + b.writecount
  }

  /** Average hits per block of a device, from its header. */
  function AvgHits(bd: BackingDevice): nat {
    bd.magic.averageReads + bd.magic.averageWrites
  }

  /** The threshold arithmetic of `migrate_up_ifneeded`: the tier (1-based)
      the block should be on. A block on tier 0 or unallocated stays; a
      block whose hits exceed its tier's average plus a hysteresis of
      average/n, and the next-faster tier's average minus its own
      hysteresis, moves up one tier. */
  function PromoteTo(b: BlockInfo, devs: seq<BackingDevice>): (r: nat)
    requires b.device <= |devs|
    ensures r == b.device || (b.device > 1 && r == b.device - 1)
    ensures b.device >= 1 ==> r >= 1
  {
    if b.device <= 1 then b.device
    else
      var n := |devs|;
      var avg := AvgHits(devs[b.device - 1]);
      if Hits(b) > avg + avg / n then
        var next := AvgHits(devs[b.device - 2]);
        if Hits(b) > next - next / n then b.device - 1 else b.device
      else b.device
  }

  /** Promotion happens exactly when the block sits below tier 0 and is hot
      relative to both its own tier and the next-faster one. */
  lemma PromoteIff(b: BlockInfo, devs: seq<BackingDevice>)
    requires b.device <= |devs|
    ensures PromoteTo(b, devs) != b.device <==>
              && b.device > 1
              && Hits(b) > AvgHits(devs[b.device - 1]) + AvgHits(devs[b.device - 1]) / |devs|
              && Hits(b) > AvgHits(devs[b.device - 2]) - AvgHits(devs[b.device - 2]) / |devs|
  {
  }

  /** Seconds since the block was last used, as the driver's signed time
      difference. */
  function Elapsed(b: BlockInfo, now: nat): int {
    now - b.lastused
  }

  /** The threshold arithmetic of `migrate_down_ifneeded`: a block past its
      device's maximum age moves one tier down; otherwise a block colder
      than average minus hysteresis that has had the collection time to
      gather hits moves down when `device + 1 < n` -- `device` being
      1-based, this keeps hit-based demotion off the slowest tier, as the
      driver does. A result past the last attached tier is reverted. */
  function DemoteTo(b: BlockInfo, devs: seq<BackingDevice>, now: nat): (r: nat)
    requires b.device <= |devs|
    ensures r == b.device || r == b.device + 1
    ensures r <= |devs|
    ensures b.device == 0 ==> r == 0
  {
    if b.device == 0 then 0
    else
      var n := |devs|;
      var bd := devs[b.device - 1];
      var avg := AvgHits(bd);
      var hysteresis := avg / n;
      var d :=
        if Elapsed(b, now) > bd.magic.policy.maxAge then b.device + 1
        else if Hits(b) < avg - hysteresis && Elapsed(b, now) > bd.magic.policy.hitCollectTime
                && b.device + 1 < n then b.device + 1
        else b.device;
      if d > n then b.device else d
  }

  /** Demotion happens exactly when the block is allocated, not already on
      the slowest tier, and either too old or (not on the last two tiers
      and) cold for long enough. */
  lemma DemoteIff(b: BlockInfo, devs: seq<BackingDevice>, now: nat)
    requires 1 <= b.device <= |devs|
    ensures var bd := devs[b.device - 1];
            var avg := AvgHits(bd);
            DemoteTo(b, devs, now) == b.device + 1 <==>
              && b.device < |devs|
              && (|| Elapsed(b, now) > bd.magic.policy.maxAge
                  || (Hits(b) < avg - avg / |devs| && Elapsed(b, now) > bd.magic.policy.hitCollectTime
                      && b.device + 1 < |devs|))
  {
  }

  /** The slowest tier is reached only by age: hit-based demotion stops one
      tier short of it. */
  lemma SlowestTierOnlyByAge(b: BlockInfo, devs: seq<BackingDevice>, now: nat)
    requires 1 <= b.device < |devs|
    requires DemoteTo(b, devs, now) == |devs|
    ensures Elapsed(b, now) > devs[b.device - 1].magic.policy.maxAge
  {
  }

  /** Per-block mean of a device's total: `btier_div(total, devicesize >> BLK_SHIFT)`. */
  function Average(total: nat, bd: BackingDevice, cfg: Config): (r: nat)
    requires bd.deviceSize >= cfg.blkSize
    ensures r * DevBlocks(bd, cfg) <= total < r * DevBlocks(bd, cfg) + DevBlocks(bd, cfg)
  {
    DevBlocksPositive(bd, cfg);
    Quotient(total, DevBlocks(bd, cfg))
  }

  /** Floor division by a positive divisor, as `btier_div` computes it. */
  function Quotient(a: nat, k: pos): (q: nat)
    ensures q * k <= a < q * k + k
  {
    DivBounds(a, k);
    a / k
  }

  lemma DevBlocksPositive(bd: BackingDevice, cfg: Config)
    requires bd.deviceSize >= cfg.blkSize
    ensures DevBlocks(bd, cfg) >= 1
  {
    var q := bd.deviceSize / cfg.blkSize;
    var r := bd.deviceSize % cfg.blkSize;
    assert bd.deviceSize == q * cfg.blkSize + r;
  }

  lemma DivBounds(a: nat, k: nat)
    requires k >= 1
    ensures (a / k) * k <= a < (a / k) * k + k
  {
    assert a == (a / k) * k + a % k;
  }

  /** The averages recomputed from the totals, as `walk_blocklist` does
      before deciding on each block. */
  function RecomputeAverages(bd: BackingDevice, cfg: Config): (r: BackingDevice)
    requires bd.deviceSize >= cfg.blkSize
    ensures r.magic.averageReads * DevBlocks(bd, cfg) <= bd.magic.totalReads
    ensures bd.magic.totalReads < r.magic.averageReads * DevBlocks(bd, cfg) + DevBlocks(bd, cfg)
    ensures r.magic.averageWrites * DevBlocks(bd, cfg) <= bd.magic.totalWrites
    ensures bd.magic.totalWrites < r.magic.averageWrites * DevBlocks(bd, cfg) + DevBlocks(bd, cfg)
    ensures r == bd.(magic := bd.magic.(averageReads := r.magic.averageReads,
                                        averageWrites := r.magic.averageWrites))
  {
    bd.(magic := bd.magic.(averageReads := Average(bd.magic.totalReads, bd, cfg),
                           averageWrites := Average(bd.magic.totalWrites, bd, cfg)))
  }

  /** `reset_counters_on_migration` applied to the device `b` leaves: its
      u64 totals lose the block's counts and its averages are recomputed. */
  function ResetCounters(bd: BackingDevice, b: BlockInfo, cfg: Config): (r: BackingDevice)
    requires bd.deviceSize >= cfg.blkSize
    ensures r.magic.totalReads == WrapU64(bd.magic.totalReads - b.readcount)
    ensures r.magic.totalWrites == WrapU64(bd.magic.totalWrites - b.writecount)
    ensures r.magic.averageReads * DevBlocks(bd, cfg) <= r.magic.totalReads
    ensures r.magic.totalReads < r.magic.averageReads * DevBlocks(bd, cfg) + DevBlocks(bd, cfg)
    ensures r.magic.averageWrites * DevBlocks(bd, cfg) <= r.magic.totalWrites
    ensures r.magic.totalWrites < r.magic.averageWrites * DevBlocks(bd, cfg) + DevBlocks(bd, cfg)
    ensures r == bd.(magic := r.magic)
    ensures r.magic == bd.magic.(totalReads := r.magic.totalReads, totalWrites := r.magic.totalWrites,
                                 averageReads := r.magic.averageReads, averageWrites := r.magic.averageWrites)
  {
    var g := bd.magic.(totalReads := WrapU64(bd.magic.totalReads - b.readcount),
                       totalWrites := WrapU64(bd.magic.totalWrites - b.writecount));
    RecomputeAverages(bd.(magic := g), cfg)
  }

  /** When the totals include the departed block's counts, the reset takes
      exactly those counts away, so the device keeps accounting for the
      hits of the blocks that stay. */
  lemma ResetCountersExact(bd: BackingDevice, b: BlockInfo, cfg: Config)
    requires bd.deviceSize >= cfg.blkSize
    requires bd.magic.totalReads < U64 && bd.magic.totalWrites < U64
    requires b.readcount <= bd.magic.totalReads && b.writecount <= bd.magic.totalWrites
    ensures ResetCounters(bd, b, cfg).magic.totalReads + b.readcount == bd.magic.totalReads
    ensures ResetCounters(bd, b, cfg).magic.totalWrites + b.writecount == bd.magic.totalWrites
  {
  }

  /** The counter decay of `walk_blocklist`: a count that reached
      MAX_STAT_COUNT loses MAX_STAT_DECAY, and so does the device's total. */
  function Decay(b: BlockInfo, g: DeviceMagic, cfg: Config): (r: (BlockInfo, DeviceMagic))
    requires cfg.Valid()
    ensures r.0 == b.(readcount := r.0.readcount, writecount := r.0.writecount)
    ensures r.1 == g.(totalReads := r.1.totalReads, totalWrites := r.1.totalWrites)
    ensures r.0.readcount == if b.readcount >= cfg.maxStatCount then b.readcount - cfg.maxStatDecay
                             else b.readcount
    ensures r.0.writecount == if b.writecount >= cfg.maxStatCount then b.writecount - cfg.maxStatDecay
                              else b.writecount
    ensures r.1.totalReads == if b.readcount >= cfg.maxStatCount then WrapU64(g.totalReads - cfg.maxStatDecay)
                              else g.totalReads
    ensures r.1.totalWrites == if b.writecount >= cfg.maxStatCount then WrapU64(g.totalWrites - cfg.maxStatDecay)
                               else g.totalWrites
  {
    var (b1, g1) :=
      if b.readcount >= cfg.maxStatCount then
        (b.(readcount := b.readcount - cfg.maxStatDecay), g.(totalReads := WrapU64(g.totalReads - cfg.maxStatDecay)))
      else (b, g);
    if b1.writecount >= cfg.maxStatCount then
      (b1.(writecount := b1.writecount - cfg.maxStatDecay), g1.(totalWrites := WrapU64(g1.totalWrites - cfg.maxStatDecay)))
    else (b1, g1)
  }

  /** Decay never raises a count, and when the totals hold the block's
      counts it keeps the hits of all other blocks on the device as they
      were: total minus the block's count is unchanged. */
  lemma DecayKeepsBalance(b: BlockInfo, g: DeviceMagic, cfg: Config)
    requires cfg.Valid()
    requires g.totalReads < U64 && g.totalWrites < U64
    requires b.readcount <= g.totalReads && b.writecount <= g.totalWrites
    ensures var (b', g') := Decay(b, g, cfg);
            && b'.readcount <= b.readcount && b'.writecount <= b.writecount
            && g'.totalReads - b'.readcount == g.totalReads - b.readcount
            && g'.totalWrites - b'.writecount == g.totalWrites - b.writecount
            && b'.readcount <= g'.totalReads && b'.writecount <= g'.totalWrites
  {
  }
}
