/**
  Block-map records: the comparison and the two field-by-field copies
  between the in-memory entry and its on-disk form.
 */
module BlockRecords {
  import opened BtierTypes

  /** `same_blockinfo`: the on-disk record holds exactly the entry's fields. */
  predicate SameBlockInfo(p: PhysicalBlockInfo, b: BlockInfo) {
    && p.device == b.device
    && p.offset == b.offset
    && p.lastused == b.lastused
    && p.readcount == b.readcount
    && p.writecount == b.writecount
  }

  /** `copy_blockinfo`: the on-disk form of an entry. */
  function CopyBlockInfo(b: BlockInfo): (p: PhysicalBlockInfo)
    ensures SameBlockInfo(p, b)
  {
    PhysicalBlockInfo(b.device, b.offset, b.lastused, b.readcount, b.writecount)
  }

  /** `copy_physical_blockinfo`: the in-memory form of an on-disk record. */
  function CopyPhysicalBlockInfo(p: PhysicalBlockInfo): (b: BlockInfo)
    ensures SameBlockInfo(p, b)
  {
    BlockInfo(p.device, p.offset, p.lastused, p.readcount, p.writecount)
  }

  /** The comparison holds exactly for the record `copy_blockinfo` writes,
      so `update_blocklist` skips the write precisely when the disk already
      holds the copy. */
  lemma SameIffCopy(p: PhysicalBlockInfo, b: BlockInfo)
    ensures SameBlockInfo(p, b) <==> p == CopyBlockInfo(b)
  {
  }

  /** The two copies are inverse to each other. */
  lemma CopyRoundTrip(b: BlockInfo, p: PhysicalBlockInfo)
    ensures CopyPhysicalBlockInfo(CopyBlockInfo(b)) == b
    ensures CopyBlockInfo(CopyPhysicalBlockInfo(p)) == p
  {
  }

  /** The all-zero on-disk record is read back as an unallocated entry. */
  lemma ZeroRecordIsUnallocated()
    ensures CopyPhysicalBlockInfo(ZeroPhysical) == ZeroBlockInfo
    ensures CopyPhysicalBlockInfo(ZeroPhysical).device == 0
  {
  }
}
