/**
  `order_devices` at attach time: the one-pass swap that moves each
  backing device to the slot its header records, and the policy defaults
  filled in afterwards.
 */
module Ordering {
  import opened BtierTypes

  /** Every slot records a tier number that names a slot. */
  predicate SlotsInRange(s: seq<nat>) {
    forall j :: 0 <= j < |s| ==> s[j] < |s|
  }

  /** Exchange slots `i` and `j`. */
  function Swap(s: seq<nat>, i: nat, j: nat): (r: seq<nat>)
    requires i < |s| && j < |s|
    ensures |r| == |s| && r[i] == s[j] && r[j] == s[i]
    ensures forall k :: 0 <= k < |s| && k != i && k != j ==> r[k] == s[k]
    ensures multiset(r) == multiset(s)
  {
    s[i := s[j]][j := s[i]]
  }

  /** One step of the check-and-swap loop: the device in slot `i`, whose
      header records tier `s[i]`, trades places with whatever sits in slot
      `s[i]`. */
  function SwapStep(s: seq<nat>, i: nat): (r: seq<nat>)
    requires i < |s| && SlotsInRange(s)
    ensures |r| == |s| && SlotsInRange(r) && multiset(r) == multiset(s)
    ensures r[s[i]] == s[i]
  {
    if s[i] != i then Swap(s, s[i], i) else s
  }

  /** The loop from slot `i` on: each slot is visited once, and a device
      swapped into an already visited slot is not looked at again. */
  function SwapPass(s: seq<nat>, i: nat): (r: seq<nat>)
    requires SlotsInRange(s)
    ensures |r| == |s| && SlotsInRange(r)
    decreases |s| - i
  {
    if i >= |s| then s else SwapPass(SwapStep(s, i), i + 1)
  }

  /** The pass only rearranges the devices. */
  lemma {:induction false} SwapPassPermutes(s: seq<nat>, i: nat)
    requires SlotsInRange(s)
    ensures multiset(SwapPass(s, i)) == multiset(s)
    decreases |s| - i
  {
    if i < |s| {
      SwapPassPermutes(SwapStep(s, i), i + 1);
    }
  }

  /** Devices already in their recorded slots stay where they are. */
  lemma {:induction false} SwapPassKeepsOrdered(s: seq<nat>, i: nat)
    requires SlotsInRange(s)
    requires forall j :: 0 <= j < |s| ==> s[j] == j
    ensures SwapPass(s, i) == s
    decreases |s| - i
  {
    if i < |s| {
      SwapPassKeepsOrdered(s, i + 1);
    }
  }

  /** A single pass does not always put every device in place: with the
      headers recording 1, 2, 3, 0 the slots end as 2, 1, 0, 3. */
  lemma SwapPassCanMisorder(s: seq<nat>)
    requires s == [1, 2, 3, 0]
    ensures SlotsInRange(s)
    ensures SwapPass(s, 0) == [2, 1, 0, 3]
  {
    var s1: seq<nat> := [2, 1, 3, 0];
    var s3: seq<nat> := [2, 1, 0, 3];
    MisorderStep0(s, s1);
    MisorderStep2(s1, s3);
    calc {
      SwapPass(s, 0);
      SwapPass(s1, 1);
      { assert SwapStep(s1, 1) == s1; }
      SwapPass(s1, 2);
      SwapPass(s3, 3);
      { assert SwapStep(s3, 3) == s3; }
      SwapPass(s3, 4);
    }
  }

  /** The first step of the pass above: slots 0 and 1 trade places. */
  lemma MisorderStep0(s: seq<nat>, s1: seq<nat>)
    requires s == [1, 2, 3, 0] && s1 == [2, 1, 3, 0]
    ensures SlotsInRange(s) && SlotsInRange(s1) && SwapStep(s, 0) == s1
  {
    assert SlotsInRange(s) && SlotsInRange(s1);
    assert s[1 := s[0]][0 := s[1]] == s1;
  }

  /** The third step: slots 3 and 2 trade places. */
  lemma MisorderStep2(s1: seq<nat>, s3: seq<nat>)
    requires s1 == [2, 1, 3, 0] && s3 == [2, 1, 0, 3]
    ensures SlotsInRange(s1) && SlotsInRange(s3) && SwapStep(s1, 2) == s3
  {
    assert SlotsInRange(s1) && SlotsInRange(s3);
    assert s1[3 := s1[2]][2 := s1[3]] == s3;
  }

  /** The check-and-swap loop of `order_devices` on the table of recorded
      tier numbers (slot `i` holds the tier its device's header records). */
  method OrderDevices(slots: array<nat>)
    requires SlotsInRange(slots[..])
    modifies slots
    ensures SlotsInRange(slots[..])
    ensures slots[..] == SwapPass(old(slots[..]), 0)
    ensures multiset(slots[..]) == multiset(old(slots[..]))
  {
    var i := 0;
    while i < slots.Length
      invariant 0 <= i <= slots.Length
      invariant SlotsInRange(slots[..])
      invariant SwapPass(slots[..], i) == SwapPass(old(slots[..]), 0)
    {
      SwapSlot(slots, i);
      i := i + 1;
    }
    SwapPassPermutes(old(slots[..]), 0);
  }

  /** The body of the loop at slot `i`. */
  method SwapSlot(slots: array<nat>, i: nat)
    requires i < slots.Length && SlotsInRange(slots[..])
    modifies slots
    ensures slots[..] == SwapStep(old(slots[..]), i)
  {
    var newnr := slots[i];
    if i != newnr {
      var moved := slots[newnr];
      slots[newnr] := slots[i];
      slots[i] := moved;
      assert slots[..] == Swap(old(slots[..]), newnr, i);
    }
  }

  /** Per-device policy defaults: a zero maximum age or hit-collection time
      is replaced by the driver's default. */
  function DeviceDefaults(p: DataPolicy, cfg: Config): (r: DataPolicy)
    ensures r.maxAge == if p.maxAge == 0 then cfg.tierMaxAge else p.maxAge
    ensures r.hitCollectTime == if p.hitCollectTime == 0 then cfg.tierHitCollectTime else p.hitCollectTime
    ensures r == p.(maxAge := r.maxAge, hitCollectTime := r.hitCollectTime)
  {
    p.(maxAge := if p.maxAge == 0 then cfg.tierMaxAge else p.maxAge,
       hitCollectTime := if p.hitCollectTime == 0 then cfg.tierHitCollectTime else p.hitCollectTime)
  }

  /** Tier 0's policy defaults: a sequential-landing tier past the attached
      devices becomes tier 0 and a zero migration interval the default. */
  function Tier0Defaults(p: DataPolicy, attached: nat, cfg: Config): (r: DataPolicy)
    ensures r.sequentialLanding == if p.sequentialLanding >= attached then 0 else p.sequentialLanding
    ensures r.migrationInterval == if p.migrationInterval == 0 then cfg.migrateInterval else p.migrationInterval
    ensures r == p.(sequentialLanding := r.sequentialLanding, migrationInterval := r.migrationInterval)
  {
    p.(sequentialLanding := if p.sequentialLanding >= attached then 0 else p.sequentialLanding,
       migrationInterval := if p.migrationInterval == 0 then cfg.migrateInterval else p.migrationInterval)
  }

  /** After the defaults every age and interval is positive, the landing
      tier names an attached device, and values already set are kept. */
  lemma DefaultsSettle(p: DataPolicy, attached: nat, cfg: Config)
    requires cfg.Valid() && attached >= 1
    ensures var r := Tier0Defaults(DeviceDefaults(p, cfg), attached, cfg);
            && r.maxAge > 0 && r.hitCollectTime > 0 && r.migrationInterval > 0
            && r.sequentialLanding < attached
            && (p.maxAge > 0 ==> r.maxAge == p.maxAge)
            && (p.hitCollectTime > 0 ==> r.hitCollectTime == p.hitCollectTime)
            && (p.migrationInterval > 0 ==> r.migrationInterval == p.migrationInterval)
            && (p.sequentialLanding < attached ==> r.sequentialLanding == p.sequentialLanding)
            && r.migrationDisabled == p.migrationDisabled
  {
  }

  /** The defaults are idempotent: applying them twice changes nothing. */
  lemma DefaultsIdempotent(p: DataPolicy, attached: nat, cfg: Config)
    requires cfg.Valid() && attached >= 1
    ensures var r := Tier0Defaults(DeviceDefaults(p, cfg), attached, cfg);
            Tier0Defaults(DeviceDefaults(r, cfg), attached, cfg) == r
  {
  }
}
