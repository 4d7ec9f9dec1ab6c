/**
  The durable side of a migration: the one-slot journal kept in the
  source device's header, the on-disk block-map write, and recovery.
  Everything here is a function of the durable state `Meta`, so a crash
  after any step can be followed by recovery in a lemma.
 */
module Journal {
  import opened BtierTypes
  import opened BlockRecords
  import opened Bitlist

  /** The header of device `d` carries no pending migration. */
  predicate JournalClear(m: Meta, d: nat)
    requires d < |m.devs|
  {
    m.devs[d].magic.journalOld.device == 0
  }

  /** What recovery of device `d` needs to follow its journal: the journalled
      block number exists and the journalled new location is one whose
      bitlist slot can be freed. */
  predicate JournalValid(m: Meta, d: nat, cfg: Config) {
    && d < |m.devs|
    && var j := m.devs[d].magic;
       j.journalOld.device != 0 ==>
         && j.blocknrJournal < |m.diskmap|
         && LocationValid(j.journalNew.device, j.journalNew.offset, Layout(m.devs), cfg)
  }

  /** The header of device `d` with its fields replaced. */
  function SetMagic(m: Meta, d: nat, g: DeviceMagic): (r: Meta)
    requires d < |m.devs|
    ensures r.diskmap == m.diskmap && |r.devs| == |m.devs| && r.devs[d].magic == g
    ensures forall i :: 0 <= i < |m.devs| && i != d ==> r.devs[i] == m.devs[i]
    ensures r.devs[d] == m.devs[d].(magic := g)
    ensures SameLayout(m.devs, r.devs)
  {
    LayoutUpdate(m.devs, d, m.devs[d].(magic := g));
    m.(devs := m.devs[d := m.devs[d].(magic := g)])
  }

  /** `write_blocklist_journal`: the source device's header records the old
      and the new entry and the block number. */
  function WriteJournal(m: Meta, blocknr: nat, newb: BlockInfo, oldb: BlockInfo): (r: Meta)
    requires 1 <= oldb.device <= |m.devs|
    ensures r.diskmap == m.diskmap && |r.devs| == |m.devs|
    ensures r.devs[oldb.device - 1].magic.journalOld == CopyBlockInfo(oldb)
    ensures r.devs[oldb.device - 1].magic.journalNew == CopyBlockInfo(newb)
    ensures r.devs[oldb.device - 1].magic.blocknrJournal == blocknr
    ensures r.devs[oldb.device - 1].magic.clean == m.devs[oldb.device - 1].magic.clean
    ensures forall i :: 0 <= i < |m.devs| && i != oldb.device - 1 ==> r.devs[i] == m.devs[i]
    ensures SameLayout(m.devs, r.devs)
  {
    var d := oldb.device - 1;
    SetMagic(m, d, m.devs[d].magic.(journalOld := CopyBlockInfo(oldb),
                                     journalNew := CopyBlockInfo(newb),
                                     blocknrJournal := blocknr))
  }

  /** `clean_blocklist_journal`: both journal records zeroed, block number 0
      and the header marked CLEAN. */
  function CleanJournal(m: Meta, d: nat, cfg: Config): (r: Meta)
    requires d < |m.devs|
    ensures r.diskmap == m.diskmap && |r.devs| == |m.devs|
    ensures JournalClear(r, d)
    ensures var g := r.devs[d].magic;
            g.journalOld == ZeroPhysical && g.journalNew == ZeroPhysical
            && g.blocknrJournal == 0 && g.clean == cfg.clean
    ensures forall i :: 0 <= i < |m.devs| && i != d ==> r.devs[i] == m.devs[i]
    ensures r.devs[d].bitlist == m.devs[d].bitlist && r.devs[d].freeOffset == m.devs[d].freeOffset
    ensures SameLayout(m.devs, r.devs)
  {
    SetMagic(m, d, m.devs[d].magic.(journalOld := ZeroPhysical, journalNew := ZeroPhysical,
                                     clean := cfg.clean, blocknrJournal := 0))
  }

  /** The on-disk half of `write_blocklist` (policies WD and WA): the record
      of `blocknr` becomes the copy of `b`. */
  function DiskWrite(m: Meta, blocknr: nat, b: BlockInfo): (r: Meta)
    requires blocknr < |m.diskmap|
    ensures r.devs == m.devs && |r.diskmap| == |m.diskmap|
    ensures SameBlockInfo(r.diskmap[blocknr], b)
    ensures forall k :: 0 <= k < |m.diskmap| && k != blocknr ==> r.diskmap[k] == m.diskmap[k]
  {
    m.(diskmap := m.diskmap[blocknr := CopyBlockInfo(b)])
  }

  /** `clear_dev_list` on the durable state: the slot of the block at
      (`device`, `offset`) is freed on that device. */
  function FreeSlot(m: Meta, device: nat, offset: nat, cfg: Config): (r: Meta)
    requires 1 <= device <= |m.devs| && SlotInRange(m.devs[device - 1], offset, cfg)
    ensures r.diskmap == m.diskmap && |r.devs| == |m.devs|
    ensures r.devs[device - 1] == ClearSlot(m.devs[device - 1], offset, cfg)
    ensures forall i :: 0 <= i < |m.devs| && i != device - 1 ==> r.devs[i] == m.devs[i]
    ensures SameLayout(m.devs, r.devs)
  {
    LayoutUpdate(m.devs, device - 1, ClearSlot(m.devs[device - 1], offset, cfg));
    m.(devs := m.devs[device - 1 := ClearSlot(m.devs[device - 1], offset, cfg)])
  }

  /** `recover_journal` of device `d` at time `now`: a clean journal is left
      alone; otherwise the on-disk entry of the journalled block gets the old
      record back (stamped with `now`, as `write_blocklist` does), the slot
      of the journalled new location is freed when there is one, and the
      journal is cleaned. */
  function Recover(m: Meta, d: nat, now: nat, cfg: Config): (r: Meta)
    requires JournalValid(m, d, cfg)
    ensures |r.devs| == |m.devs| && |r.diskmap| == |m.diskmap|
    ensures JournalClear(r, d)
  {
    var j := m.devs[d].magic;
    if j.journalOld.device == 0 then m
    else
      var m1 := DiskWrite(m, j.blocknrJournal, CopyPhysicalBlockInfo(j.journalOld).(lastused := now));
      var m2 := if j.journalNew.device != 0 then FreeSlot(m1, j.journalNew.device, j.journalNew.offset, cfg)
                else m1;
      CleanJournal(m2, d, cfg)
  }

  /** A clean journal makes recovery a no-op. */
  lemma RecoverClearIsNoop(m: Meta, d: nat, now: nat, cfg: Config)
    requires JournalValid(m, d, cfg) && JournalClear(m, d)
    ensures Recover(m, d, now, cfg) == m
  {
  }

  /** What recovery of a pending journal does: the journalled block's
      on-disk record holds the old record (with `now` as its last use), no
      other record changes, the new slot is free, no other device changes
      apart from the headers kept by `d`, and the journal is cleaned. */
  lemma RecoverReverts(m: Meta, d: nat, now: nat, cfg: Config)
    requires JournalValid(m, d, cfg) && !JournalClear(m, d)
    ensures var j := m.devs[d].magic;
            var r := Recover(m, d, now, cfg);
            && r.diskmap[j.blocknrJournal] == j.journalOld.(lastused := now)
            && (forall k :: 0 <= k < |m.diskmap| && k != j.blocknrJournal ==> r.diskmap[k] == m.diskmap[k])
            && (j.journalNew.device != 0 ==>
                  var t := j.journalNew.device - 1;
                  var i := SlotIndex(m.devs[t], j.journalNew.offset, cfg);
                  i < |r.devs[t].bitlist| && r.devs[t].bitlist[i] == Unallocated)
            && (forall e :: 0 <= e < |m.devs| && e != d && e != j.journalNew.device - 1 ==> r.devs[e] == m.devs[e])
            && r.devs[d].magic.clean == cfg.clean
  {
  }

  /** Recovery is idempotent: a second recovery finds the journal clean. */
  lemma RecoverIdempotent(m: Meta, d: nat, now: nat, later: nat, cfg: Config)
    requires JournalValid(m, d, cfg)
    ensures JournalValid(Recover(m, d, now, cfg), d, cfg)
    ensures Recover(Recover(m, d, now, cfg), d, later, cfg) == Recover(m, d, now, cfg)
  {
    var r := Recover(m, d, now, cfg);
    RecoverClearIsNoop(r, d, later, cfg);
  }

  /** The durable states `copyblock` passes through once the target slot is
      found (`bd` is the target device record after allocation, `nb` the new
      entry): before anything, after the allocation, after the journal,
      after the map commit, after the journal is cleared. */
  function MigrationSteps(m: Meta, blocknr: nat, nb: BlockInfo, ob: BlockInfo, bd: BackingDevice,
                          cfg: Config): (steps: seq<Meta>)
    requires blocknr < |m.diskmap|
    requires 1 <= nb.device <= |m.devs| && 1 <= ob.device <= |m.devs|
    ensures |steps| == 5 && steps[0] == m && steps[4] == CommitMeta(m, blocknr, nb, ob, bd, cfg)
    ensures forall k :: 0 <= k < 5 ==> |steps[k].devs| == |m.devs| && |steps[k].diskmap| == |m.diskmap|
    ensures Geo(bd) == Geo(m.devs[nb.device - 1]) ==> forall k :: 0 <= k < 5 ==> SameLayout(m.devs, steps[k].devs)
  {
    var m1 := m.(devs := m.devs[nb.device - 1 := bd]);
    var m2 := WriteJournal(m1, blocknr, nb, ob);
    var m3 := DiskWrite(m2, blocknr, nb);
    LayoutUpdate(m.devs, nb.device - 1, bd);
    [m, m1, m2, m3, CleanJournal(m3, ob.device - 1, cfg)]
  }

  /** The durable state after a completed `copyblock`: the target record
      `bd` is installed, the block's on-disk record is the new entry and the
      source device's journal is clear. Only the target's bitlist changes,
      only the block's record changes, and every data policy other than the
      target's, which is `bd`'s, stays. */
  function CommitMeta(m: Meta, blocknr: nat, nb: BlockInfo, ob: BlockInfo, bd: BackingDevice,
                      cfg: Config): (r: Meta)
    requires blocknr < |m.diskmap|
    requires 1 <= nb.device <= |m.devs| && 1 <= ob.device <= |m.devs|
    ensures |r.devs| == |m.devs| && |r.diskmap| == |m.diskmap|
    ensures SameBlockInfo(r.diskmap[blocknr], nb) && JournalClear(r, ob.device - 1)
    ensures r.devs[ob.device - 1].magic.clean == cfg.clean
    ensures forall k :: 0 <= k < |m.diskmap| && k != blocknr ==> r.diskmap[k] == m.diskmap[k]
    ensures r.devs[nb.device - 1].bitlist == bd.bitlist && r.devs[nb.device - 1].magic.policy == bd.magic.policy
    ensures forall e :: 0 <= e < |m.devs| && e != nb.device - 1 ==>
              r.devs[e].bitlist == m.devs[e].bitlist && r.devs[e].magic.policy == m.devs[e].magic.policy
    ensures Geo(bd) == Geo(m.devs[nb.device - 1]) ==> SameLayout(m.devs, r.devs)
  {
    var m1 := m.(devs := m.devs[nb.device - 1 := bd]);
    LayoutUpdate(m.devs, nb.device - 1, bd);
    CleanJournal(DiskWrite(WriteJournal(m1, blocknr, nb, ob), blocknr, nb), ob.device - 1, cfg)
  }

  /** The durable state after a completed `copyblock` whose `olddevice` is
      the map entry itself: the WA write has turned that entry into the new
      one before the journal is cleaned, so the clean goes to the new
      entry's device and the source device's journal stays pending with
      the move, its clean flag as it was. */
  function AliasedCommit(m: Meta, blocknr: nat, nb: BlockInfo, ob: BlockInfo, bd: BackingDevice,
                         cfg: Config): (r: Meta)
    requires blocknr < |m.diskmap|
    requires 1 <= nb.device <= |m.devs| && 1 <= ob.device <= |m.devs| && nb.device != ob.device
    ensures |r.devs| == |m.devs| && |r.diskmap| == |m.diskmap|
    ensures SameBlockInfo(r.diskmap[blocknr], nb) && JournalClear(r, nb.device - 1)
    ensures r.devs[nb.device - 1].magic.clean == cfg.clean
    ensures forall k :: 0 <= k < |m.diskmap| && k != blocknr ==> r.diskmap[k] == m.diskmap[k]
    ensures var j := r.devs[ob.device - 1].magic;
            && j.journalOld == CopyBlockInfo(ob) && j.journalNew == CopyBlockInfo(nb)
            && j.blocknrJournal == blocknr && j.clean == m.devs[ob.device - 1].magic.clean
    ensures !JournalClear(r, ob.device - 1)
    ensures r.devs[nb.device - 1].bitlist == bd.bitlist && r.devs[nb.device - 1].magic.policy == bd.magic.policy
    ensures forall e :: 0 <= e < |m.devs| && e != nb.device - 1 ==>
              r.devs[e].bitlist == m.devs[e].bitlist && r.devs[e].magic.policy == m.devs[e].magic.policy
    ensures Geo(bd) == Geo(m.devs[nb.device - 1]) ==> SameLayout(m.devs, r.devs)
  {
    var m1 := m.(devs := m.devs[nb.device - 1 := bd]);
    LayoutUpdate(m.devs, nb.device - 1, bd);
    CleanJournal(DiskWrite(WriteJournal(m1, blocknr, nb, ob), blocknr, nb), nb.device - 1, cfg)
  }

  /** The location a block-map record points at. */
  function Loc(p: PhysicalBlockInfo): (nat, nat) {
    (p.device, p.offset)
  }

  /** Bitlist byte of the slot at an (allocated, in-range) location. */
  function SlotByte(m: Meta, device: nat, offset: nat, cfg: Config): byte
    requires 1 <= device <= |m.devs| && SlotInRange(m.devs[device - 1], offset, cfg)
  {
    m.devs[device - 1].bitlist[SlotIndex(m.devs[device - 1], offset, cfg)]
  }

  /** The situation `copyblock` starts a migration from: a clean journal, a
      disk record at the old location, whose slot is ALLOCATED, and an
      allocation that took a previously free slot on another device with a
      geometry-preserving target record `bd`. */
  predicate MigrationStart(m: Meta, blocknr: nat, nb: BlockInfo, ob: BlockInfo, bd: BackingDevice, cfg: Config) {
    && blocknr < |m.diskmap|
    && 1 <= nb.device <= |m.devs| && 1 <= ob.device <= |m.devs| && nb.device != ob.device
    && JournalClear(m, ob.device - 1)
    && Loc(m.diskmap[blocknr]) == (ob.device, ob.offset)
    && SlotInRange(m.devs[ob.device - 1], ob.offset, cfg)
    && SlotByte(m, ob.device, ob.offset, cfg) == Allocated
    && Geo(bd) == Geo(m.devs[nb.device - 1])
    && SlotInRange(bd, nb.offset, cfg) && bd.bitlist[SlotIndex(bd, nb.offset, cfg)] == Allocated
    && bd.magic == m.devs[nb.device - 1].magic
  }

  /** Recovering the source device's journal from the durable state `s`
      leaves the block's on-disk record at the old or the new location, with
      that location's slot ALLOCATED, and the journal clear. */
  predicate RecoversSafely(s: Meta, blocknr: nat, nb: BlockInfo, ob: BlockInfo, now: nat, cfg: Config)
    requires blocknr < |s.diskmap| && 1 <= nb.device <= |s.devs| && 1 <= ob.device <= |s.devs|
  {
    && JournalValid(s, ob.device - 1, cfg)
    && var r := Recover(s, ob.device - 1, now, cfg);
       && JournalClear(r, ob.device - 1)
       && (|| (Loc(r.diskmap[blocknr]) == (ob.device, ob.offset)
               && SlotInRange(r.devs[ob.device - 1], ob.offset, cfg)
               && SlotByte(r, ob.device, ob.offset, cfg) == Allocated)
           || (Loc(r.diskmap[blocknr]) == (nb.device, nb.offset)
               && SlotInRange(r.devs[nb.device - 1], nb.offset, cfg)
               && SlotByte(r, nb.device, nb.offset, cfg) == Allocated))
  }

  /** Crash safety of a migration: whatever step of `copyblock` a crash
      interrupts, recovering the source device's journal leaves the
      block's on-disk record at either the old or the new location, and
      that location's slot is still ALLOCATED.  The old slot is only freed
      by the caller, after `copyblock` has returned. */
  lemma CrashSafeMigration(m: Meta, blocknr: nat, nb: BlockInfo, ob: BlockInfo, bd: BackingDevice, now: nat,
                           cfg: Config, k: nat)
    requires MigrationStart(m, blocknr, nb, ob, bd, cfg) && k < 5
    ensures RecoversSafely(MigrationSteps(m, blocknr, nb, ob, bd, cfg)[k], blocknr, nb, ob, now, cfg)
  {
    if k <= 1 {
      CrashBeforeJournal(m, blocknr, nb, ob, bd, now, cfg, k);
    } else if k <= 3 {
      CrashWhileJournalled(m, blocknr, nb, ob, bd, now, cfg, k);
    } else {
      CrashAfterCommit(m, blocknr, nb, ob, bd, now, cfg);
    }
  }

  /** A crash before the journal is written: the record is untouched and
      recovery has nothing to do. */
  lemma CrashBeforeJournal(m: Meta, blocknr: nat, nb: BlockInfo, ob: BlockInfo, bd: BackingDevice, now: nat,
                           cfg: Config, k: nat)
    requires MigrationStart(m, blocknr, nb, ob, bd, cfg) && k <= 1
    ensures RecoversSafely(MigrationSteps(m, blocknr, nb, ob, bd, cfg)[k], blocknr, nb, ob, now, cfg)
  {
    var s := MigrationSteps(m, blocknr, nb, ob, bd, cfg)[k];
    var o := ob.device - 1;
    SameLayoutAt(m.devs, s.devs, o);
    assert s.devs[o] == m.devs[o];
    RecoverClearIsNoop(s, o, now, cfg);
  }

  /** A crash while the journal is pending: recovery puts the old record
      back, and the old slot was never freed. */
  lemma CrashWhileJournalled(m: Meta, blocknr: nat, nb: BlockInfo, ob: BlockInfo, bd: BackingDevice, now: nat,
                             cfg: Config, k: nat)
    requires MigrationStart(m, blocknr, nb, ob, bd, cfg) && 2 <= k <= 3
    ensures RecoversSafely(MigrationSteps(m, blocknr, nb, ob, bd, cfg)[k], blocknr, nb, ob, now, cfg)
  {
    var s := MigrationSteps(m, blocknr, nb, ob, bd, cfg)[k];
    var m2 := WriteJournal(m.(devs := m.devs[nb.device - 1 := bd]), blocknr, nb, ob);
    assert s.devs == m2.devs && |s.diskmap| == |m.diskmap|;
    JournalledState(m, blocknr, nb, ob, bd, cfg);
    RecoverPending(s, blocknr, nb, ob, now, cfg);
  }

  /** Once the journal is written, the source device holds the journal of
      the move and its old slot is still ALLOCATED. */
  lemma JournalledState(m: Meta, blocknr: nat, nb: BlockInfo, ob: BlockInfo, bd: BackingDevice, cfg: Config)
    requires MigrationStart(m, blocknr, nb, ob, bd, cfg)
    ensures var s := WriteJournal(m.(devs := m.devs[nb.device - 1 := bd]), blocknr, nb, ob);
            && blocknr < |s.diskmap| && 1 <= nb.device <= |s.devs| && 1 <= ob.device <= |s.devs|
            && (var j := s.devs[ob.device - 1].magic;
                j.journalOld == CopyBlockInfo(ob) && j.journalNew == CopyBlockInfo(nb) && j.blocknrJournal == blocknr)
            && SlotInRange(s.devs[nb.device - 1], nb.offset, cfg)
            && SlotInRange(s.devs[ob.device - 1], ob.offset, cfg)
            && SlotByte(s, ob.device, ob.offset, cfg) == Allocated
  {
    var o, t := ob.device - 1, nb.device - 1;
    var m1 := m.(devs := m.devs[t := bd]);
    var m2 := WriteJournal(m1, blocknr, nb, ob);
    LayoutUpdate(m.devs, t, bd);
    assert m1.devs[o] == m.devs[o];
    SameLayoutAt(m1.devs, m2.devs, o);
    SameLayoutAt(m1.devs, m2.devs, t);
    assert m2.devs[o].bitlist == m.devs[o].bitlist;
  }

  /** Recovery of a journal that records the move of block `blocknr` from
      `ob` to `nb`, while the old slot is still ALLOCATED. */
  lemma RecoverPending(s: Meta, blocknr: nat, nb: BlockInfo, ob: BlockInfo, now: nat, cfg: Config)
    requires blocknr < |s.diskmap| && 1 <= nb.device <= |s.devs| && 1 <= ob.device <= |s.devs|
    requires nb.device != ob.device && ob.device != 0
    requires var j := s.devs[ob.device - 1].magic;
             j.journalOld == CopyBlockInfo(ob) && j.journalNew == CopyBlockInfo(nb) && j.blocknrJournal == blocknr
    requires SlotInRange(s.devs[nb.device - 1], nb.offset, cfg)
    requires SlotInRange(s.devs[ob.device - 1], ob.offset, cfg)
    requires SlotByte(s, ob.device, ob.offset, cfg) == Allocated
    ensures RecoversSafely(s, blocknr, nb, ob, now, cfg)
  {
    var o := ob.device - 1;
    assert Layout(s.devs)[nb.device - 1] == Geo(s.devs[nb.device - 1]);
    assert JournalValid(s, o, cfg);
    var r := Recover(s, o, now, cfg);
    RecoverReverts(s, o, now, cfg);
    assert r.devs[o].bitlist == s.devs[o].bitlist;
    SameLayoutAt(s.devs, r.devs, o);
  }

  /** A crash after the journal is cleared: the record is at the new
      location, whose slot is marked, and recovery has nothing to do. */
  lemma CrashAfterCommit(m: Meta, blocknr: nat, nb: BlockInfo, ob: BlockInfo, bd: BackingDevice, now: nat,
                         cfg: Config)
    requires MigrationStart(m, blocknr, nb, ob, bd, cfg)
    ensures RecoversSafely(MigrationSteps(m, blocknr, nb, ob, bd, cfg)[4], blocknr, nb, ob, now, cfg)
  {
    var s := MigrationSteps(m, blocknr, nb, ob, bd, cfg)[4];
    var t := nb.device - 1;
    SameLayoutAt(m.devs, s.devs, t);
    assert s.devs[t].bitlist == bd.bitlist;
    RecoverClearIsNoop(s, ob.device - 1, now, cfg);
  }

  /** The check `order_devices` makes of device `d` at attach: `tier_check`,
      and with it journal recovery, runs only when the header is not marked
      CLEAN. A header it does not check is left as it is. */
  function AttachCheck(m: Meta, d: nat, now: nat, cfg: Config): (r: Meta)
    requires d < |m.devs|
    requires m.devs[d].magic.clean != cfg.clean ==> JournalValid(m, d, cfg)
    ensures |r.devs| == |m.devs| && |r.diskmap| == |m.diskmap|
    ensures m.devs[d].magic.clean != cfg.clean ==> JournalClear(r, d)
    ensures JournalClear(m, d) ==> r == m
  {
    if m.devs[d].magic.clean != cfg.clean then Recover(m, d, now, cfg) else m
  }

  /** A completed migration leaves its source header CLEAN, and the journal
      of a later migration from the same device keeps that flag. A crash
      after that journal is written and before it is cleaned therefore
      leaves a pending journal on a CLEAN header, which the attach-time
      check passes over: the recovery that would restore the old on-disk
      record and free the newly allocated slot does not run. */
  lemma SecondMigrationEscapesRecovery(m: Meta, b1: nat, nb1: BlockInfo, ob1: BlockInfo, bd1: BackingDevice,
                                       b2: nat, nb2: BlockInfo, ob2: BlockInfo, bd2: BackingDevice,
                                       now: nat, cfg: Config)
    requires b1 < |m.diskmap| && 1 <= nb1.device <= |m.devs| && 1 <= ob1.device <= |m.devs|
    requires b2 < |m.diskmap| && 1 <= nb2.device <= |m.devs| && ob2.device == ob1.device
    requires nb2.device != ob2.device
    ensures var s := MigrationSteps(CommitMeta(m, b1, nb1, ob1, bd1, cfg), b2, nb2, ob2, bd2, cfg)[2];
            && var d := ob2.device - 1;
               && d < |s.devs| && s.devs[d].magic.clean == cfg.clean && !JournalClear(s, d)
               && s.devs[d].magic.journalOld == CopyBlockInfo(ob2)
               && s.devs[d].magic.journalNew == CopyBlockInfo(nb2)
               && AttachCheck(s, d, now, cfg) == s
  {
    var c := CommitMeta(m, b1, nb1, ob1, bd1, cfg);
    var m1 := c.(devs := c.devs[nb2.device - 1 := bd2]);
    assert m1.devs[ob2.device - 1] == c.devs[ob2.device - 1];
    var s := WriteJournal(m1, b2, nb2, ob2);
    assert MigrationSteps(c, b2, nb2, ob2, bd2, cfg)[2] == s;
  }
}
