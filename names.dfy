/**
  The pool of device-name letters: `sdtiera` .. `sdtierz`. A slot holds its
  letter while the name is free and 0 while a device uses it.
 */
module DeviceNamePool {
  import opened BtierTypes

  const Taken: char := 0 as char

  /** The letter of slot `i`: 'a' + i. */
  function Letter(i: nat): char
    requires i < 26
  {
    (('a' as int) + i) as char
  }

  /** A pool in which every slot holds its own letter or is taken. */
  predicate Pool(s: seq<char>) {
    |s| <= 26 && forall i :: 0 <= i < |s| ==> s[i] == Taken || s[i] == Letter(i)
  }

  /** First slot at or after `i` that is not taken, or `|s|`. */
  function FindFree(s: seq<char>, i: nat): (r: nat)
    requires i <= |s|
    ensures i <= r <= |s|
    ensures r < |s| ==> s[r] != Taken
    ensures forall j :: i <= j < r ==> s[j] == Taken
    decreases |s| - i
  {
    if i == |s| || s[i] != Taken then i else FindFree(s, i + 1)
  }

  /** `reserve_devicename`: the first free letter's name and slot number,
      the slot marked taken; none when every letter is in use. */
  function Reserve(s: seq<char>): (r: (Option<(string, nat)>, seq<char>))
  {
    var i := FindFree(s, 0);
    if i == |s| then (None, s) else (Some((['s', 'd', 't', 'i', 'e', 'r', s[i]], i)), s[i := Taken])
  }

  /** The name a release can restore: `sdtier` followed by a pool letter. */
  predicate Releasable(s: seq<char>, name: string) {
    |name| >= 7 && 'a' <= name[6] && (name[6] as int) - ('a' as int) < |s|
  }

  /** `release_devicename`: the letter at position 6 of the name goes back
      into its slot; a missing name changes nothing. */
  function Release(s: seq<char>, name: Option<string>): (r: seq<char>)
    requires name.Some? ==> Releasable(s, name.value)
    ensures |r| == |s|
  {
    match name
    case None => s
    case Some(n) => s[(n[6] as int) - ('a' as int) := n[6]]
  }

  /** Reserving hands out the lowest free letter, as `sdtier<letter>`, takes
      exactly that slot, and fails only when every slot is taken. */
  lemma ReserveFirstFree(s: seq<char>)
    requires Pool(s)
    ensures var (r, s') := Reserve(s);
            && Pool(s') && |s'| == |s|
            && (r.None? <==> forall j :: 0 <= j < |s| ==> s[j] == Taken)
            && (r.Some? ==>
                  var (name, i) := r.value;
                  && i < |s| && s[i] == Letter(i) && name == "sdtier" + [Letter(i)]
                  && (forall j :: 0 <= j < i ==> s[j] == Taken)
                  && s' == s[i := Taken])
            && (r.None? ==> s' == s)
  {
  }

  /** Releasing the name just reserved restores the pool. */
  lemma ReserveReleaseRoundTrip(s: seq<char>)
    requires Pool(s)
    requires Reserve(s).0.Some?
    ensures Releasable(Reserve(s).1, Reserve(s).0.value.0)
    ensures Release(Reserve(s).1, Some(Reserve(s).0.value.0)) == s
  {
    var i := FindFree(s, 0);
    assert s[i] == Letter(i);
    assert (Letter(i) as int) - ('a' as int) == i;
    assert s[i := Taken][i := s[i]] == s;
  }

  /** The name table, `devicenames`. */
  class DeviceNames {
    var names: array<char>

    ghost predicate Valid()
      reads this, names
    {
      Pool(names[..])
    }

    /** `init_devicenames`: every slot holds its letter. */
    constructor (maxDevs: nat)
      requires 1 <= maxDevs <= 26
      ensures Valid() && fresh(names) && names.Length == maxDevs
      ensures forall i :: 0 <= i < maxDevs ==> names[i] == Letter(i)
    {
      var a := new char[maxDevs];
      var i := 0;
      while i < maxDevs
        invariant 0 <= i <= maxDevs
        invariant forall j :: 0 <= j < i ==> a[j] == Letter(j)
      {
        a[i] := Letter(i);
        i := i + 1;
      }
      names := a;
    }

    /** `reserve_devicename`: scan for the first slot that is not taken. */
    method ReserveName() returns (r: Option<(string, nat)>)
      requires Valid()
      modifies names
      ensures Valid()
      ensures (r, names[..]) == Reserve(old(names[..]))
    {
      var i := 0;
      var device := Taken;
      while i < names.Length
        invariant 0 <= i <= names.Length
        invariant forall j :: 0 <= j < i ==> names[j] == Taken
        invariant device == Taken
      {
        device := names[i];
        if device != Taken {
          break;
        }
        i := i + 1;
      }
      assert i == FindFree(names[..], 0) by {
        FindFreeIs(names[..], 0, i);
      }
      if device == Taken {
        r := None;
        return;
      }
      r := Some((['s', 'd', 't', 'i', 'e', 'r', device], i));
      names[i] := Taken;
      ReserveFirstFree(old(names[..]));
    }

    /** `release_devicename`. */
    method ReleaseName(name: Option<string>)
      requires Valid()
      requires name.Some? ==> Releasable(names[..], name.value)
      modifies names
      ensures Valid()
      ensures names[..] == Release(old(names[..]), name)
    {
      if name.None? {
        return;
      }
      var d := name.value[6];
      var pos := (d as int) - ('a' as int);
      names[pos] := d;
    }
  }

  /** `FindFree` from `i` is the first non-taken slot. */
  lemma {:induction false} FindFreeIs(s: seq<char>, i: nat, k: nat)
    requires i <= k <= |s|
    requires forall j :: i <= j < k ==> s[j] == Taken
    requires k < |s| ==> s[k] != Taken
    ensures FindFree(s, i) == k
    decreases k - i
  {
    if i < k {
      FindFreeIs(s, i + 1, k);
    }
  }
}
