/**
  Shared vocabulary of the btier placement-metadata model: bytes, the
  compile-time constants of the driver (taken as parameters), block-map
  records, device headers and the per-device state kept by the driver.
 */
module BtierTypes {

  datatype Option<T> = None | Some(value: T)

  /** One byte of an allocation bitlist. */
  newtype byte = x: int | 0 <= x < 256

  /** Bitlist byte values: `allocated_on_device` counts 0xff bytes and
      `wipe_bitlist` frees a region by writing zeroes. */
  const Allocated: byte := 0xFF
  const Unallocated: byte := 0x00

  /** Linux error numbers returned (negated) by the engine. */
  const EIO: int := 5
  const EAGAIN: int := 11
  const EEXIST: int := 17
  const ENOSPC: int := 28

  /** 2^64: unsigned 64-bit arithmetic of the driver wraps modulo this. */
  const U64: int := 0x1_0000_0000_0000_0000

  /** The value of a u64 expression whose mathematical value is `x`. */
  function WrapU64(x: int): (r: nat)
    ensures r < U64
    ensures 0 <= x < U64 ==> r == x
    ensures (x - r) % U64 == 0
  {
    x % U64
  }

  /** A positive size. */
  type pos = x: nat | x >= 1 witness 1

  /** The driver's constants that live in its header file, as parameters.
      `blkSize` is BLKSIZE (1 << BLK_SHIFT) and `pageSize` PAGE_SIZE
      (1 << PAGE_SHIFT); a right shift by either shift is a division by
      the matching size. */
  datatype Config = Config(
    blkSize: pos,              // BLKSIZE
    pageSize: pos,             // PAGE_SIZE
    maxStatCount: nat,         // MAX_STAT_COUNT
    maxStatDecay: nat,         // MAX_STAT_DECAY
    tierMaxAge: nat,           // TIERMAXAGE
    tierHitCollectTime: nat,   // TIERHITCOLLECTTIME
    migrateInterval: nat,      // MIGRATE_INTERVAL
    clean: nat,                // CLEAN
    dirty: nat)                // DIRTY
  {
    /** The parameters are positive, a decay never exceeds the cap that
        triggers it, and the two header states differ. */
    predicate Valid() {
      && 0 < maxStatDecay <= maxStatCount
      && tierMaxAge > 0 && tierHitCollectTime > 0 && migrateInterval > 0
      && clean != dirty
    }
  }

  /** The configurations the driver can be built with. */
  type ValidConfig = c: Config | c.Valid() witness Config(1, 1, 1, 1, 1, 1, 1, 0, 1)

  /** In-memory block-map entry (`struct blockinfo`): device 0 means the
      logical block is unallocated, otherwise it is the 1-based tier. */
  datatype BlockInfo = BlockInfo(device: nat, offset: nat, lastused: nat,
                                 readcount: nat, writecount: nat)

  /** On-disk block-map record (`struct physical_blockinfo`). */
  datatype PhysicalBlockInfo = PhysicalBlockInfo(device: nat, offset: nat, lastused: nat,
                                                 readcount: nat, writecount: nat)

  const ZeroPhysical := PhysicalBlockInfo(0, 0, 0, 0, 0)
  const ZeroBlockInfo := BlockInfo(0, 0, 0, 0, 0)

  /** `struct data_policy` of a device header. */
  datatype DataPolicy = DataPolicy(maxAge: nat, hitCollectTime: nat, migrationInterval: nat,
                                   migrationDisabled: bool, sequentialLanding: nat)

  /** `struct devicemagic`: the persistent header of one backing device,
      with its running counters, policy and one-slot migration journal. */
  datatype DeviceMagic = DeviceMagic(
    device: nat,                     // tier slot recorded at format time
    clean: nat,                      // CLEAN or DIRTY
    deviceSize: nat,
    startOfBitlist: nat,
    bitlistSize: nat,
    totalReads: nat, totalWrites: nat,
    averageReads: nat, averageWrites: nat,
    policy: DataPolicy,
    journalOld: PhysicalBlockInfo,
    journalNew: PhysicalBlockInfo,
    blocknrJournal: nat)

  /** `struct backing_device` with its bitlist loaded: the bitlist holds one
      byte per block of the data region `[startOfData, endOfData]`. */
  datatype BackingDevice = BackingDevice(
    bitlist: seq<byte>,
    freeOffset: nat,       // index of the lowest slot believed free
    usedOffset: nat,       // absolute offset of the last allocation
    startOfData: nat,
    endOfData: nat,
    startOfBitlist: nat,
    bitlistSize: nat,
    deviceSize: nat,
    magic: DeviceMagic)

  /** What the driver keeps durably: the on-disk block map (on tier 0) and,
      per device, its header and bitlist together with the cursors that
      describe them. Crash recovery starts from a value of this type. */
  datatype Meta = Meta(diskmap: seq<PhysicalBlockInfo>, devs: seq<BackingDevice>)

  /** The geometry of a device: where its data region lies, how many
      slots its bitlist has, and its recorded sizes. The migration engine
      never changes it. */
  datatype Geometry = Geometry(startOfData: nat, endOfData: nat, slots: nat,
                               bitlistSize: nat, deviceSize: nat)

  function Geo(bd: BackingDevice): Geometry {
    Geometry(bd.startOfData, bd.endOfData, |bd.bitlist|, bd.bitlistSize, bd.deviceSize)
  }

  /** The geometry of every device of a table, in tier order. */
  function Layout(devs: seq<BackingDevice>): (r: seq<Geometry>)
    ensures |r| == |devs|
    ensures forall i {:trigger r[i]} :: 0 <= i < |devs| ==> r[i] == Geo(devs[i])
  {
    seq(|devs|, i requires 0 <= i < |devs| => Geo(devs[i]))
  }

  /** Bitlist index of the block at absolute `offset` of device `bd`:
      `(offset - startofdata) >> BLK_SHIFT`. */
  function SlotIndex(bd: BackingDevice, offset: nat, cfg: Config): nat
    requires offset >= bd.startOfData
  {
    (offset - bd.startOfData) / cfg.blkSize
  }

  /** `offset` names a slot of a device with geometry `g`. */
  predicate InRange(g: Geometry, offset: nat, cfg: Config) {
    offset >= g.startOfData && (offset - g.startOfData) / cfg.blkSize < g.slots
  }

  /** `offset` names a slot of `bd`'s bitlist. */
  predicate SlotInRange(bd: BackingDevice, offset: nat, cfg: Config) {
    InRange(Geo(bd), offset, cfg)
  }

  /** A block-map location the engine can follow: unallocated, or on an
      attached device (of layout `layout`) at a slot its bitlist covers. */
  predicate LocationValid(device: nat, offset: nat, layout: seq<Geometry>, cfg: Config) {
    device == 0 || (device <= |layout| && InRange(layout[device - 1], offset, cfg))
  }

  /** Structural well-formedness of a device geometry: the bitlist length
      is the recorded size, a whole number of pages, and covers the whole
      device; the device holds at least one block (its averages divide by
      that). */
  predicate GeometryValid(g: Geometry, cfg: Config) {
    && g.slots == g.bitlistSize
    && g.bitlistSize % cfg.pageSize == 0
    && g.deviceSize <= g.startOfData + g.bitlistSize * cfg.blkSize
    && g.deviceSize >= cfg.blkSize
  }

  /** Every device of a layout is well formed. */
  predicate LayoutValid(layout: seq<Geometry>, cfg: Config) {
    forall i :: 0 <= i < |layout| ==> GeometryValid(layout[i], cfg)
  }

  /** A well-formed device. */
  predicate DeviceValid(bd: BackingDevice, cfg: Config) {
    GeometryValid(Geo(bd), cfg)
  }

  /** Number of blocks of a device: `devicesize >> BLK_SHIFT`. */
  function DevBlocks(bd: BackingDevice, cfg: Config): nat {
    bd.deviceSize / cfg.blkSize
  }

  /** Two device tables with the same geometry. */
  predicate SameLayout(a: seq<BackingDevice>, b: seq<BackingDevice>) {
    Layout(a) == Layout(b)
  }

  /** Device `i` of a well-formed layout is well formed. */
  lemma LayoutValidAt(devs: seq<BackingDevice>, i: nat, cfg: Config)
    requires LayoutValid(Layout(devs), cfg) && i < |devs|
    ensures DeviceValid(devs[i], cfg)
    ensures |devs[i].bitlist| == devs[i].bitlistSize && devs[i].deviceSize >= cfg.blkSize
  {
    assert Layout(devs)[i] == Geo(devs[i]);
  }

  /** Device `i` of two tables with the same layout has the same geometry. */
  lemma SameLayoutAt(a: seq<BackingDevice>, b: seq<BackingDevice>, i: nat)
    requires SameLayout(a, b) && i < |a|
    ensures Geo(a[i]) == Geo(b[i])
    ensures a[i].startOfData == b[i].startOfData && |a[i].bitlist| == |b[i].bitlist|
  {
    assert Layout(a)[i] == Layout(b)[i];
  }

  /** Replacing one device by a record of the same geometry keeps the layout. */
  lemma LayoutUpdate(devs: seq<BackingDevice>, d: nat, bd: BackingDevice)
    requires d < |devs|
    ensures Geo(bd) == Geo(devs[d]) ==> Layout(devs[d := bd]) == Layout(devs)
  {
    if Geo(bd) == Geo(devs[d]) {
      var a, b := Layout(devs[d := bd]), Layout(devs);
      assert forall i | 0 <= i < |a| :: a[i] == b[i];
    }
  }
}
