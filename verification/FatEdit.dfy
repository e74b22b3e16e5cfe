/** Editing directories: what a written, deleted or updated entry does to look-ups
    (kernel/fs/fat.c). */
module FatEdit {
  import opened Tiny
  import opened FatDisk
  import opened FatDir

  /** What a directory says about a name. */
  ghost function Look(secs: seq<Sector>, n: Name, fat32: bool): Option<Meta>
  {
    if exists k: nat :: HasEnt(secs, n, k) then
      var k: nat :| HasEnt(secs, n, k);
      Some(Decode(Slot(secs, k), fat32))
    else None
  }

  lemma LookIs(secs: seq<Sector>, n: Name, fat32: bool, k: nat)
    requires DirOk(secs) && HasEnt(secs, n, k)
    ensures Look(secs, n, fat32) == Some(Decode(Slot(secs, k), fat32))
  {
    var j: nat :| HasEnt(secs, n, j) && Look(secs, n, fat32) == Some(Decode(Slot(secs, j), fat32));
    OneEnt(secs, n, j, k);
  }

  /** Two directories with the same entries for `n` answer alike. */
  lemma LookSame(secs: seq<Sector>, secs': seq<Sector>, n: Name, fat32: bool)
    requires DirOk(secs) && DirOk(secs') && forall k: nat :: HasEnt(secs', n, k) <==> HasEnt(secs, n, k)
    requires forall k: nat ::
             HasEnt(secs, n, k) ==> HasEnt(secs', n, k) && Decode(Slot(secs', k), fat32) == Decode(Slot(secs, k), fat32)
    ensures Look(secs', n, fat32) == Look(secs, n, fat32)
  {
    if k: nat :| HasEnt(secs, n, k) {
      LookIs(secs, n, fat32, k);
      LookIs(secs', n, fat32, k);
    }
  }

  lemma PutHas(secs: seq<Sector>, k: nat, e: Ent, n: Name, i: nat)
    requires k < 16 * |secs|
    ensures HasEnt(PutSlot(secs, k, e), n, i) <==> if i == k then Matches(e, n) else HasEnt(secs, n, i)
  {
    if i < 16 * |secs| { SlotPut(secs, k, e, i); }
    hide Slot, PutSlot;
  }

  // ----- a new entry -----

  lemma AddOk(secs: seq<Sector>, k: nat, n: Name, e: Ent)
    requires DirOk(secs) && k < 16 * |secs| && Taken(secs, k) && Matches(e, n) && forall i: nat :: !HasEnt(secs, n, i)
    ensures DirOk(PutSlot(secs, k, e))
  {
    hide Slot, PutSlot;
    var secs' := PutSlot(secs, k, e);
    forall i: nat, j: nat
      ensures OrderOk(secs', i, j)
    {
      if i < j < 16 * |secs| {
        SlotPut(secs, k, e, i);
        SlotPut(secs, k, e, j);
        assert OrderOk(secs, i, j) && !HasEnt(secs, n, i) && !HasEnt(secs, n, j);
      }
    }
  }

  /** An entry written into the first free slot: the name is there now, no other answer changes. */
  lemma AddLook(secs: seq<Sector>, k: nat, n: Name, m: Meta, fat32: bool, x: Name)
    requires DirOk(secs) && k < 16 * |secs| && Taken(secs, k) && IsFree(Slot(secs, k)) && Plain(n) && m.attr != LFN &&
             m.Fits(fat32)
    requires forall i: nat :: !HasEnt(secs, n, i)
    ensures Matches(Encode(n, m), n) && DirOk(PutSlot(secs, k, Encode(n, m)))
    ensures Look(PutSlot(secs, k, Encode(n, m)), x, fat32) == if x == n then Some(m) else Look(secs, x, fat32)
  {
    DecodeEncode(n, m, fat32);
    var e := Encode(n, m);
    assert e[0] == n[0] by { assert e[..11][0] == e[0]; }
    assert e[11] == m.attr by { EncodeBytes(n, m); }
    hide Slot, PutSlot, Encode, Decode;
    AddOk(secs, k, n, e);
    var secs' := PutSlot(secs, k, e);
    SlotPut(secs, k, e, k);
    if x == n {
      LookIs(secs', n, fat32, k);
    } else {
      forall i: nat
        ensures HasEnt(secs', x, i) <==> HasEnt(secs, x, i)
        ensures HasEnt(secs, x, i) ==> Slot(secs', i) == Slot(secs, i)
      {
        PutHas(secs, k, e, x, i);
        if i < 16 * |secs| { SlotPut(secs, k, e, i); }
      }
      LookSame(secs, secs', x, fat32);
    }
  }

  // ----- a deleted entry -----

  /** The entry marked deleted, the rest of it in place. */
  function Deleted(e: Ent): Ent
  {
    e[0 := DELETED]
  }

  lemma DelLook(secs: seq<Sector>, k: nat, n: Name, fat32: bool, x: Name)
    requires DirOk(secs) && HasEnt(secs, n, k)
    ensures DirOk(PutSlot(secs, k, Deleted(Slot(secs, k))))
    ensures Look(PutSlot(secs, k, Deleted(Slot(secs, k))), x, fat32) == if x == n then None else Look(secs, x, fat32)
  {
    hide Slot, PutSlot, Decode;
    var e := Deleted(Slot(secs, k));
    var secs' := PutSlot(secs, k, e);
    forall i: nat, j: nat
      ensures OrderOk(secs', i, j)
    {
      assert OrderOk(secs, i, j);
      if i < j < 16 * |secs| { SlotPut(secs, k, e, i); SlotPut(secs, k, e, j); }
    }
    forall i: nat
      ensures HasEnt(secs', x, i) <==> i != k && HasEnt(secs, x, i)
      ensures i != k && HasEnt(secs, x, i) ==> Slot(secs', i) == Slot(secs, i)
    {
      PutHas(secs, k, e, x, i);
      if i < 16 * |secs| { SlotPut(secs, k, e, i); }
    }
    if x == n {
      forall i: nat
        ensures !HasEnt(secs', n, i)
      {
        if HasEnt(secs, n, i) { OneEnt(secs, n, i, k); }
      }
    } else {
      LookSame(secs, secs', x, fat32);
    }
  }

  // ----- an updated entry -----

  /** Name, attributes and so liveness stay. */
  lemma EditLook(secs: seq<Sector>, k: nat, n: Name, e: Ent, fat32: bool, x: Name)
    requires DirOk(secs) && HasEnt(secs, n, k) && e[..12] == Slot(secs, k)[..12]
    ensures DirOk(PutSlot(secs, k, e))
    ensures Look(PutSlot(secs, k, e), x, fat32) == if x == n then Some(Decode(e, fat32)) else Look(secs, x, fat32)
  {
    SameHead(e, Slot(secs, k));
    hide Slot, PutSlot, Decode;
    var secs' := PutSlot(secs, k, e);
    forall i: nat, j: nat
      ensures OrderOk(secs', i, j)
    {
      assert OrderOk(secs, i, j);
      if i < j < 16 * |secs| { SlotPut(secs, k, e, i); SlotPut(secs, k, e, j); }
    }
    forall i: nat
      ensures HasEnt(secs', x, i) <==> HasEnt(secs, x, i)
      ensures i != k && HasEnt(secs, x, i) ==> Slot(secs', i) == Slot(secs, i)
    {
      PutHas(secs, k, e, x, i);
      if i < 16 * |secs| { SlotPut(secs, k, e, i); }
    }
    SlotPut(secs, k, e, k);
    if x == n {
      LookIs(secs', n, fat32, k);
    } else {
      assert !HasEnt(secs, x, k);
      LookSame(secs, secs', x, fat32);
    }
  }

  lemma SameHead(e: Ent, f: Ent)
    requires e[..12] == f[..12]
    ensures e[0] == f[0] && e[11] == f[11] && e[..11] == f[..11]
  {
    assert e[..12][0] == e[0] && e[..12][11] == e[11] && e[..12][..11] == e[..11];
    assert f[..12][0] == f[0] && f[..12][11] == f[11] && f[..12][..11] == f[..11];
  }

  // ----- more room -----

  /** Zeroed sectors at the end add nothing. */
  lemma GrowLook(secs: seq<Sector>, z: nat, fat32: bool, x: Name)
    requires DirOk(secs)
    ensures DirOk(secs + Zeros(z)) && Look(secs + Zeros(z), x, fat32) == Look(secs, x, fat32)
  {
    hide Slot, Decode;
    var secs' := secs + Zeros(z);
    forall i: nat, j: nat
      ensures OrderOk(secs', i, j)
    {
      assert OrderOk(secs, i, j);
      if i < j < 16 * |secs'| { ZeroSlots(secs, Zeros(z), i); ZeroSlots(secs, Zeros(z), j); }
    }
    forall i: nat
      ensures HasEnt(secs', x, i) <==> HasEnt(secs, x, i)
      ensures HasEnt(secs, x, i) ==> Slot(secs', i) == Slot(secs, i)
    {
      if i < 16 * |secs'| { ZeroSlots(secs, Zeros(z), i); }
    }
    LookSame(secs, secs', x, fat32);
  }
}
