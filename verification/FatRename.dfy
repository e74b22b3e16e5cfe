/** Moving an entry between directories (dir_find_free_slot, dir_unlink_at, fat_update_dotdot and
    dir_rename_cross in kernel/fs/fat.c). */
module FatRename {
  import opened Tiny
  import opened FatDisk
  import opened FatChain
  import opened FatFile
  import opened FatDir
  import opened FatEdit

  /** What directory `d` says about `n`. */
  ghost function Ask(g: Geo, v: Vol, d: DirRef, n: Name): Option<Meta>
  {
    Look(DirSecs(v, d), n, g.fat32)
  }

  /** The name "..", padded. */
  function DotDot(): Name
  {
    [46, 46] + seq(9, _ => 32)
  }

  /** A ".." in the second slot is still there. */
  ghost predicate DotsKept(v: Vol, d: DirRef, v': Vol, d': DirRef)
  {
    HasEnt(DirSecs(v, d), DotDot(), 1) ==> HasEnt(DirSecs(v', d'), DotDot(), 1)
  }

  // ----- one slot written -----

  /** Slot `j` of the sector at the cursor becomes `e`. */
  ghost predicate SlotWritten(g: Geo, v: Vol, d: DirRef, p: nat, j: nat, e: Ent, v': Vol)
  {
    && p < |DirSecs(v, d)| && j < 16 && Sized(g, v') && v'.t == v.t
    && DirSecs(v', d) == PutSlot(DirSecs(v, d), 16 * p + j, e)
    && forall r: DirRef :: IsDirRef(g, v, r) && RefsApart(d, r) ==> DirSecs(v', r) == DirSecs(v, r)
  }

  lemma SlotIs(g: Geo, v: Vol, d: DirRef, cur: Cursor, i: nat, p: nat, j: nat, e: Ent)
    requires Sized(g, v) && IsDirRef(g, v, d) && CurAt(g, d, cur, i, p) && g.clusters + 2 <= g.Eof() &&
             p < |DirSecs(v, d)| && j < 16
    ensures if cur.fixed then cur.s < |v.root| else cur.c < |v.data| && cur.s < |v.data[cur.c]|
    ensures SlotWritten(g, v, d, p, j, e, PutAt(v, cur, PutEnt(DirSecs(v, d)[p], j, e)))
  {
    hide CurAt, PutAt, PutEnt, DirSecs, RefsApart, IsDirRef;
    var sec := PutEnt(DirSecs(v, d)[p], j, e);
    PutAtDir(g, v, d, cur, i, p, sec);
    forall r: DirRef | IsDirRef(g, v, r) && RefsApart(d, r)
      ensures DirSecs(PutAt(v, cur, sec), r) == DirSecs(v, r)
    {
      PutAtOther(g, v, d, cur, i, p, sec, r);
    }
    assert (16 * p + j) / 16 == p && (16 * p + j) % 16 == j;
  }

  /** The slot at the cursor is read, changed and written back. */
  method WriteSlot(vol: Volume, cur: Cursor, j: nat, e: Ent, ghost d: DirRef, ghost i: nat, ghost p: nat)
    requires vol.Valid() && IsDirRef(vol.g, vol.v, d) && CurAt(vol.g, d, cur, i, p) && p < |DirSecs(vol.v, d)| && j < 16
    modifies vol, vol.disk
    ensures vol.Valid() && SlotWritten(vol.g, old(vol.v), d, p, j, e, vol.v)
  {
    hide Rep, CurAt, DirSecs, SlotWritten, IsDirRef;
    SpcPositive(vol);
    SizedIs(vol.g, vol.disk[..], vol.v);
    CurFacts(vol.g, vol.v, d, cur, i, p);
    SlotIs(vol.g, vol.v, d, cur, i, p, j, e);
    var sec := ReadAt(vol, cur, d, i, p);
    WriteAt(vol, cur, PutEnt(sec, j, e), d, i, p);
  }

  // ----- room for an entry -----

  /** `d'` is `d`, or `d` with a zeroed cluster more. */
  ghost predicate Room(g: Geo, v: Vol, d: DirRef, v': Vol, d': DirRef)
  {
    (d' == d && v' == v) || (d.Chain? && exists c: nat :: Grew(g, v, d.ch, c, v') && d' == Chain(d.ch + [c]))
  }

  /** Every slot is taken, and there is no cluster to add. */
  ghost predicate NoRoom(g: Geo, v: Vol, d: DirRef)
  {
    && Taken(DirSecs(v, d), 16 * |DirSecs(v, d)|)
    && (d.Chain? ==> forall c: nat :: g.IsCluster(c) && c < |v.t| ==> v.t[c] != 0)
  }

  /** dir_find_free_slot: the first free slot; a chain without one gets another cluster. */
  method FindSlot(vol: Volume, key: nat, ghost d: DirRef)
    returns (ok: bool, cur: Cursor, j: nat, ghost d': DirRef, ghost i: nat, ghost p: nat)
    requires vol.Valid() && IsDirRef(vol.g, vol.v, d) && Names(vol.g, key, d)
    modifies vol, vol.disk
    ensures vol.Valid() && Room(vol.g, old(vol.v), d, vol.v, d') && IsDirRef(vol.g, vol.v, d')
    ensures !ok ==> vol.v == old(vol.v) && d' == d && NoRoom(vol.g, vol.v, d)
    ensures ok ==> !NoRoom(vol.g, old(vol.v), d) && p < |DirSecs(vol.v, d')| && CurAt(vol.g, d', cur, i, p) && j < 16
    ensures ok ==> Taken(DirSecs(vol.v, d'), 16 * p + j) && IsFree(Slot(DirSecs(vol.v, d'), 16 * p + j))
  {
    hide Rep, Taken, Slot, Names, Grew, CurAt, DirSecs;
    SpcPositive(vol);
    SizedIs(vol.g, vol.disk[..], vol.v);
    KeyKind(vol.g, vol.v, d, key);
    ghost var v0 := vol.v;
    var prev;
    ok, cur, j, prev, i, p := FindFree(vol, key, d);
    d' := d;
    if ok {
      SlotIsRoom(vol.g, v0, d, 16 * p + j);
      return;
    }
    if key == 0 && !vol.g.fat32 { return; }
    var c := Extend(vol, prev, d.ch);
    if c == 0 { return; }
    GrewIsRoom(vol.g, v0, d, c, vol.v);
    GrewDir(vol.g, v0, d.ch, c, vol.v);
    d' := Chain(d.ch + [c]);
    GrownSlot(vol.g, v0, d.ch, c, vol.v);
    return true, Cursor(false, c, 0), 0, d', |d.ch|, |d.ch| * vol.g.spc;
  }

  lemma SlotIsRoom(g: Geo, v: Vol, d: DirRef, k: nat)
    requires k < 16 * |DirSecs(v, d)| && IsFree(Slot(DirSecs(v, d), k))
    ensures !NoRoom(g, v, d)
  {
  }

  lemma GrewIsRoom(g: Geo, v: Vol, d: DirRef, c: nat, v': Vol)
    requires d.Chain? && Grew(g, v, d.ch, c, v')
    ensures !NoRoom(g, v, d)
  {
  }

  lemma KeyKind(g: Geo, v: Vol, d: DirRef, key: nat)
    requires IsDirRef(g, v, d) && Names(g, key, d)
    ensures d.Fixed? <==> key == 0 && !g.fat32
  {
    if d.Chain? { assert LinkAt(g, v.t, d.ch, 0); }
  }

  method Extend(vol: Volume, prev: nat, ghost ch: seq<nat>) returns (c: nat)
    requires vol.Valid() && IsChain(vol.g, vol.v.t, ch) && ch != [] && prev == ch[|ch| - 1]
    modifies vol, vol.disk
    ensures vol.Valid()
    ensures c == 0 ==> vol.v == old(vol.v) && forall e: nat :: vol.g.IsCluster(e) && e < |vol.v.t| ==> vol.v.t[e] != 0
    ensures c != 0 ==> Grew(vol.g, old(vol.v), ch, c, vol.v)
  {
    hide Rep;
    SpcPositive(vol);
    LastIsCluster(vol.g, vol.v, ch);
    c := AllocCluster(vol);
    if c != 0 { vol.Put(prev, c); }
  }

  lemma LastIsCluster(g: Geo, v: Vol, ch: seq<nat>)
    requires IsChain(g, v.t, ch) && ch != []
    ensures ch[|ch| - 1] < |v.t| && g.IsCluster(ch[|ch| - 1])
  {
    assert LinkAt(g, v.t, ch, |ch| - 1);
  }

  /** The new cluster's first slot is free, and all before it are taken. */
  lemma GrownSlot(g: Geo, v: Vol, ch: seq<nat>, c: nat, v': Vol)
    requires Sized(g, v) && IsChain(g, v.t, ch) && Grew(g, v, ch, c, v') && g.clusters + 2 <= g.Eof() && g.spc > 0
    requires ch != [] && Taken(DirSecs(v, Chain(ch)), 16 * |DirSecs(v, Chain(ch))|)
    ensures var d, p := Chain(ch + [c]), |ch| * g.spc;
            && p < |DirSecs(v', d)| && Taken(DirSecs(v', d), 16 * p + 0) && IsFree(Slot(DirSecs(v', d), 16 * p + 0))
            && CurAt(g, d, Cursor(false, c, 0), |ch|, p) && Room(g, v, Chain(ch), v', d) && IsDirRef(g, v', d)
  {
    GrewDir(g, v, ch, c, v');
    ChainInData(g, v, ch);
    SecsLen(v.data, ch, g.spc);
    var old_, z := Secs(v.data, ch), Zeros(g.spc);
    hide Secs;
    ZeroSlots(old_, z, 16 * |old_|);
    forall a: nat | a < 16 * |old_|
      ensures !IsFree(Slot(old_ + z, a))
    {
      ZeroSlots(old_, z, a);
    }
  }

  // ----- deleting an entry -----

  /** dir_unlink_at without freeing: the entry is marked deleted. */
  method DeleteEntry(vol: Volume, key: nat, n: Name, ghost d: DirRef) returns (found: bool, c: nat)
    requires vol.Valid() && IsDirRef(vol.g, vol.v, d) && Names(vol.g, key, d) && DirOk(DirSecs(vol.v, d))
    modifies vol, vol.disk
    ensures vol.Valid() && (found <==> Ask(vol.g, old(vol.v), d, n).Some?)
    ensures !found ==> vol.v == old(vol.v)
    ensures found ==> c == Ask(vol.g, old(vol.v), d, n).value.clus && EntryGone(vol.g, old(vol.v), d, n, vol.v)
  {
    hide Rep, DirOk, CurAt, DirSecs, SlotWritten, Slot, Names, EntryGone, PutEnt, IsDirRef;
    ghost var v0 := vol.v;
    var cur, j;
    ghost var i, p;
    found, cur, j, i, p := FindEntry(vol, key, n, false, d);
    c := 0;
    if !found { return; }
    SpcPositive(vol);
    SizedIs(vol.g, vol.disk[..], vol.v);
    CurFacts(vol.g, v0, d, cur, i, p);
    var sec := ReadAt(vol, cur, d, i, p);
    var e := EntIn(sec, j);
    SlotHere(DirSecs(v0, d), p, j);
    LookIs(DirSecs(v0, d), n, vol.g.fat32, 16 * p + j);
    c := ClusOf(e, vol.g.fat32);
    WriteSlot(vol, cur, j, Deleted(e), d, i, p);
    GoneIs(vol.g, v0, d, n, p, j, vol.v);
  }

  lemma SlotHere(secs: seq<Sector>, p: nat, j: nat)
    requires p < |secs| && j < 16
    ensures Slot(secs, 16 * p + j) == EntIn(secs[p], j)
  {
  }

  /** `n` is gone from `d`; nothing else changed. */
  ghost predicate EntryGone(g: Geo, v: Vol, d: DirRef, n: Name, v': Vol)
  {
    && Sized(g, v') && v'.t == v.t && DirOk(DirSecs(v', d))
    && (forall x :: Ask(g, v', d, x) == if x == n then None else Ask(g, v, d, x))
    && (n != DotDot() ==> DotsKept(v, d, v', d))
    && (forall r: DirRef :: IsDirRef(g, v, r) && RefsApart(d, r) ==> DirSecs(v', r) == DirSecs(v, r))
  }

  lemma GoneIs(g: Geo, v: Vol, d: DirRef, n: Name, p: nat, j: nat, v': Vol)
    requires DirOk(DirSecs(v, d)) && HasEnt(DirSecs(v, d), n, 16 * p + j)
    requires SlotWritten(g, v, d, p, j, Deleted(Slot(DirSecs(v, d), 16 * p + j)), v')
    ensures EntryGone(g, v, d, n, v')
  {
    hide DirSecs, PutSlot, Slot, Look, HasEnt, RefsApart, DirOk, IsDirRef;
    forall x
      ensures Ask(g, v', d, x) == if x == n then None else Ask(g, v, d, x)
    {
      DelLook(DirSecs(v, d), 16 * p + j, n, g.fat32, x);
    }
    DelLook(DirSecs(v, d), 16 * p + j, n, g.fat32, n);
    PutHas(DirSecs(v, d), 16 * p + j, Deleted(Slot(DirSecs(v, d), 16 * p + j)), DotDot(), 1);
    OneAt(DirSecs(v, d), 16 * p + j, n, DotDot());
  }

  lemma OneAt(secs: seq<Sector>, k: nat, n: Name, x: Name)
    requires HasEnt(secs, n, k)
    ensures HasEnt(secs, x, k) ==> x == n
  {
  }

  // ----- adding an entry -----

  /** `d` says `m` about `n` now; nothing else changed. */
  ghost predicate EntrySet(g: Geo, v: Vol, d: DirRef, n: Name, m: Meta, v': Vol)
  {
    && Sized(g, v') && v'.t == v.t && DirOk(DirSecs(v', d))
    && (forall x :: Ask(g, v', d, x) == if x == n then Some(m) else Ask(g, v, d, x)) && DotsKept(v, d, v', d)
    && (forall r: DirRef :: IsDirRef(g, v, r) && RefsApart(d, r) ==> DirSecs(v', r) == DirSecs(v, r))
  }

  lemma AddedIs(g: Geo, v: Vol, d: DirRef, n: Name, m: Meta, p: nat, j: nat, v': Vol)
    requires DirOk(DirSecs(v, d)) && Plain(n) && m.attr != LFN && m.Fits(g.fat32) && Ask(g, v, d, n) == None
    requires SlotWritten(g, v, d, p, j, Encode(n, m), v') && Taken(DirSecs(v, d), 16 * p + j) &&
             IsFree(Slot(DirSecs(v, d), 16 * p + j))
    ensures EntrySet(g, v, d, n, m, v')
  {
    assert forall k: nat :: !HasEnt(DirSecs(v, d), n, k);
    hide DirSecs, PutSlot, Slot, Look, HasEnt, RefsApart, DirOk, Encode, Taken, IsDirRef;
    forall x
      ensures Ask(g, v', d, x) == if x == n then Some(m) else Ask(g, v, d, x)
    {
      AddLook(DirSecs(v, d), 16 * p + j, n, m, g.fat32, x);
    }
    AddLook(DirSecs(v, d), 16 * p + j, n, m, g.fat32, n);
    PutHas(DirSecs(v, d), 16 * p + j, Encode(n, m), DotDot(), 1);
    FreeHasNone(DirSecs(v, d), 16 * p + j, DotDot());
  }

  lemma FreeHasNone(secs: seq<Sector>, k: nat, n: Name)
    requires k < 16 * |secs| && IsFree(Slot(secs, k))
    ensures !HasEnt(secs, n, k)
  {
  }

  lemma RoomLook(g: Geo, v: Vol, d: DirRef, v': Vol, d': DirRef)
    requires Sized(g, v) && IsDirRef(g, v, d) && DirOk(DirSecs(v, d)) && Room(g, v, d, v', d') &&
             g.clusters + 2 <= g.Eof()
    ensures Sized(g, v') && DirOk(DirSecs(v', d')) && (forall x :: Ask(g, v', d', x) == Ask(g, v, d, x)) &&
            DotsKept(v, d, v', d')
    ensures KeyOf(d') == KeyOf(d)
    ensures forall r: DirRef :: IsDirRef(g, v, r) && RefsApart(d, r) ==>
              IsDirRef(g, v', r) && DirSecs(v', r) == DirSecs(v, r) && RefsApart(d', r)
  {
    hide Look, Secs, DirOk;
    if !(d' == d && v' == v) {
      var c: nat :| Grew(g, v, d.ch, c, v') && d' == Chain(d.ch + [c]);
      GrewDir(g, v, d.ch, c, v');
      forall x
        ensures Ask(g, v', d', x) == Ask(g, v, d, x) && DirOk(DirSecs(v', d'))
      {
        GrowLook(Secs(v.data, d.ch), g.spc, g.fat32, x);
      }
      assert Ask(g, v', d', DotDot()) == Ask(g, v, d, DotDot());
      if HasEnt(Secs(v.data, d.ch), DotDot(), 1) { GrowHas(Secs(v.data, d.ch), g.spc, DotDot(), 1); }
      forall r: DirRef | IsDirRef(g, v, r) && RefsApart(d, r)
        ensures IsDirRef(g, v', r) && DirSecs(v', r) == DirSecs(v, r) && RefsApart(d', r)
      {
        GrewOther(g, v, d.ch, c, v', r);
      }
    }
  }

  lemma GrowHas(secs: seq<Sector>, z: nat, n: Name, k: nat)
    requires HasEnt(secs, n, k)
    ensures HasEnt(secs + Zeros(z), n, k)
  {
    ZeroSlots(secs, Zeros(z), k);
  }

  // ----- the parent link of a moved directory -----

  function SetClus(e: Ent, c: nat): Ent
  {
    e[20 := Low(c / 0x1_0000)][21 := High(c / 0x1_0000)][26 := Low(c % 0x1_0000)][27 := High(c % 0x1_0000)]
  }

  lemma SetClusDecode(e: Ent, c: nat, fat32: bool)
    requires c < if fat32 then 0x1_0000_0000 else 0x1_0000
    ensures Decode(SetClus(e, c), fat32) == Decode(e, fat32).(clus := c) && SetClus(e, c)[..12] == e[..12]
  {
    var e' := SetClus(e, c);
    ReadPair(e', 20, c / 0x1_0000);
    ReadPair(e', 26, c % 0x1_0000);
    hide Low, High, Le16;
  }

  /** fat_update_dotdot: the second entry of the directory names its new parent. */
  method UpdateDotDot(vol: Volume, c: nat, parent: nat, ghost d: DirRef) returns (ok: bool)
    requires vol.Valid() && IsDirRef(vol.g, vol.v, d) && d.Chain? && c == KeyOf(d) && DirOk(DirSecs(vol.v, d))
    requires parent < vol.g.clusters + 2 && HasEnt(DirSecs(vol.v, d), DotDot(), 1)
    modifies vol, vol.disk
    ensures ok && vol.Valid()
    ensures EntrySet(vol.g, old(vol.v), d, DotDot(),
                     Decode(Slot(DirSecs(old(vol.v), d), 1), vol.g.fat32).(clus := parent), vol.v)
  {
    hide Rep, DirOk, CurAt, DirSecs, SlotWritten, Slot, PutEnt, HasEnt, Decode, SetClus;
    ghost var v0 := vol.v;
    SpcPositive(vol);
    SizedIs(vol.g, vol.disk[..], vol.v);
    FirstSector(vol.g, v0, d, c);
    var sec := ReadAt(vol, Cursor(false, c, 0), d, 0, 0);
    var e := EntIn(sec, 1);
    SlotHere(DirSecs(v0, d), 0, 1);
    DotsFirst(DirSecs(v0, d), 1);
    if !(e[0] == 46 && e[1] == 46) { return false; }
    WriteSlot(vol, Cursor(false, c, 0), 1, SetClus(e, parent), d, 0, 0);
    SetClusDecode(e, parent, vol.g.fat32);
    SetIs(vol.g, v0, d, DotDot(), 0, 1, SetClus(e, parent), vol.v);
    ok := true;
  }

  lemma DotsFirst(secs: seq<Sector>, k: nat)
    requires HasEnt(secs, DotDot(), k)
    ensures Slot(secs, k)[0] == 46 && Slot(secs, k)[1] == 46
  {
    assert Slot(secs, k)[..11][0] == Slot(secs, k)[0] && Slot(secs, k)[..11][1] == Slot(secs, k)[1];
  }

  lemma FirstSector(g: Geo, v: Vol, d: DirRef, c: nat)
    requires Sized(g, v) && IsDirRef(g, v, d) && d.Chain? && c == KeyOf(d) && g.spc > 0 && g.clusters + 2 <= g.Eof()
    ensures CurAt(g, d, Cursor(false, c, 0), 0, 0) && More(g, Cursor(false, c, 0)) && 0 < |DirSecs(v, d)|
  {
    assert LinkAt(g, v.t, d.ch, 0);
    CurFacts(g, v, d, Cursor(false, c, 0), 0, 0);
  }

  lemma SetIs(g: Geo, v: Vol, d: DirRef, n: Name, p: nat, j: nat, e: Ent, v': Vol)
    requires DirOk(DirSecs(v, d)) && HasEnt(DirSecs(v, d), n, 16 * p + j) &&
             e[..12] == Slot(DirSecs(v, d), 16 * p + j)[..12]
    requires SlotWritten(g, v, d, p, j, e, v')
    ensures EntrySet(g, v, d, n, Decode(e, g.fat32), v')
  {
    hide DirSecs, PutSlot, Slot, Look, HasEnt, RefsApart, DirOk, Decode, IsDirRef;
    forall x
      ensures Ask(g, v', d, x) == if x == n then Some(Decode(e, g.fat32)) else Ask(g, v, d, x)
    {
      EditLook(DirSecs(v, d), 16 * p + j, n, e, g.fat32, x);
    }
    EditLook(DirSecs(v, d), 16 * p + j, n, e, g.fat32, n);
    PutHas(DirSecs(v, d), 16 * p + j, e, DotDot(), 1);
    SameHas(DirSecs(v, d), 16 * p + j, e, DotDot());
  }

  lemma SameHas(secs: seq<Sector>, k: nat, e: Ent, n: Name)
    requires k < 16 * |secs| && e[..12] == Slot(secs, k)[..12]
    ensures Matches(e, n) <==> HasEnt(secs, n, k)
  {
    SameHead(e, Slot(secs, k));
  }

  // ----- the move -----

  /** Entry `n1` of `d1` can be moved to `n2` in `d2`; `dm` is the directory it names, if it names one. */
  ghost predicate Movable(g: Geo, v: Vol, d1: DirRef, n1: Name, d2: DirRef, n2: Name, dm: DirRef)
  {
    && Sized(g, v) && IsDirRef(g, v, d1) && IsDirRef(g, v, d2) && RefsApart(d1, d2) && DirOk(DirSecs(v, d1))
    && DirOk(DirSecs(v, d2))
    && Plain(n2) && Ask(g, v, d1, n1).Some? && Ask(g, v, d2, n2) == None
    && (Ask(g, v, d1, n1).value.IsDir() ==> IsMovedDir(g, v, d1, d2, dm, Ask(g, v, d1, n1).value))
  }

  ghost predicate IsMovedDir(g: Geo, v: Vol, d1: DirRef, d2: DirRef, dm: DirRef, m: Meta)
  {
    && IsDirRef(g, v, dm) && dm.Chain? && m.clus == KeyOf(dm) && RefsApart(dm, d1) && RefsApart(dm, d2)
    && DirOk(DirSecs(v, dm)) && HasEnt(DirSecs(v, dm), DotDot(), 1)
  }

  /** What the move has made of the volume. */
  ghost predicate Moved(g: Geo, v: Vol, d1: DirRef, n1: Name, d2: DirRef, n2: Name, dm: DirRef, v': Vol, d2': DirRef)
  {
    var m := Ask(g, v, d1, n1);
    && m.Some? && Sized(g, v') && DirOk(DirSecs(v', d1)) && DirOk(DirSecs(v', d2')) && IsDirRef(g, v', d2')
    && KeyOf(d2') == KeyOf(d2)
    && (n1 != DotDot() ==> DotsKept(v, d1, v', d1)) && DotsKept(v, d2, v', d2')
    && (m.value.IsDir() ==> DotsKept(v, dm, v', dm))
    && (forall r: DirRef :: IsDirRef(g, v, r) && RefsApart(d2, r) ==> IsDirRef(g, v', r) && RefsApart(d2', r))
    && (forall x :: Ask(g, v', d1, x) == if x == n1 then None else Ask(g, v, d1, x))
    && (forall x :: Ask(g, v', d2', x) == if x == n2 then m else Ask(g, v, d2, x))
    && (m.value.IsDir() ==> ParentSet(g, v, dm, KeyOf(d2), v'))
    && (forall r: DirRef ::
         IsDirRef(g, v, r) && RefsApart(d1, r) && RefsApart(d2, r) && (m.value.IsDir() ==> RefsApart(dm, r)) ==>
          DirSecs(v', r) == DirSecs(v, r))
  }

  /** The directory's ".." names `parent` now; its other entries are as they were. */
  ghost predicate ParentSet(g: Geo, v: Vol, d: DirRef, parent: nat, v': Vol)
  {
    && DirOk(DirSecs(v', d)) && Ask(g, v, d, DotDot()).Some?
    && forall x ::
       Ask(g, v', d, x) == if x == DotDot() then Some(Ask(g, v, d, x).value.(clus := parent)) else Ask(g, v, d, x)
  }

  lemma ApartSym(d: DirRef, e: DirRef)
    ensures RefsApart(d, e) <==> RefsApart(e, d)
  {
  }

  /** After making room: everything is as it was, with `d2'` for `d2`. */
  ghost predicate Ready(g: Geo, v: Vol, d1: DirRef, n1: Name, d2: DirRef, dm: DirRef, v1: Vol, d2': DirRef)
  {
    var m := Ask(g, v, d1, n1);
    && m.Some? && IsDirRef(g, v1, d1) && IsDirRef(g, v1, d2') && DirSecs(v1, d1) == DirSecs(v, d1)
    && DirOk(DirSecs(v1, d2'))
    && RefsApart(d2', d1) && RefsApart(d1, d2') && (forall x :: Ask(g, v1, d2', x) == Ask(g, v, d2, x))
    && KeyOf(d2') == KeyOf(d2) && DotsKept(v, d2, v1, d2')
    && (m.value.IsDir() ==>
         IsDirRef(g, v1, dm) && DirSecs(v1, dm) == DirSecs(v, dm) && RefsApart(d2', dm) && RefsApart(dm, d2') &&
         RefsApart(dm, d1) && RefsApart(d1, dm))
    && (forall r: DirRef ::
         IsDirRef(g, v, r) && RefsApart(d2, r) ==>
         IsDirRef(g, v1, r) && DirSecs(v1, r) == DirSecs(v, r) && RefsApart(d2', r))
  }

  lemma RoomReady(g: Geo, v: Vol, d1: DirRef, n1: Name, d2: DirRef, n2: Name, dm: DirRef, v1: Vol, d2': DirRef)
    requires Movable(g, v, d1, n1, d2, n2, dm) && Room(g, v, d2, v1, d2') && IsDirRef(g, v1, d2') &&
             g.clusters + 2 <= g.Eof()
    ensures Sized(g, v1) && Ready(g, v, d1, n1, d2, dm, v1, d2')
  {
    hide Look, DirSecs, DirOk, IsDirRef, RefsApart;
    RoomLook(g, v, d2, v1, d2');
    ApartSym(d1, d2);
    ApartSym(d1, d2');
    ApartSym(dm, d2);
    ApartSym(dm, d2');
    ApartSym(dm, d1);
  }

  lemma MoveSteps(g: Geo, v: Vol, d1: DirRef, n1: Name, d2: DirRef, n2: Name, dm: DirRef, v1: Vol, d2': DirRef,
      v2: Vol, v3: Vol, v4: Vol)
    requires Ready(g, v, d1, n1, d2, dm, v1, d2') &&
             (forall r: DirRef :: IsDirRef(g, v1, r) ==> IsDirRef(g, v2, r) && IsDirRef(g, v3, r))
    requires EntrySet(g, v1, d2', n2, Ask(g, v, d1, n1).value, v2) && EntryGone(g, v3, d1, n1, v4)
    requires IsDirRef(g, v4, d2') && Sized(g, v4) && (forall r: DirRef :: IsDirRef(g, v1, r) ==> IsDirRef(g, v4, r))
    requires if Ask(g, v, d1, n1).value.IsDir()
             then Ask(g, v, dm, DotDot()).Some? &&
               EntrySet(g, v2, dm, DotDot(), Ask(g, v, dm, DotDot()).value.(clus := KeyOf(d2)), v3)
             else v3 == v2
    ensures Moved(g, v, d1, n1, d2, n2, dm, v4, d2')
  {
    hide Look, DirSecs, DirOk, IsDirRef, RefsApart, KeyOf, HasEnt;
    var m := Ask(g, v, d1, n1).value;
    assert DirSecs(v2, d1) == DirSecs(v1, d1);
    assert DirSecs(v3, d1) == DirSecs(v, d1);
    assert DirSecs(v3, d2') == DirSecs(v2, d2');
    assert DirSecs(v4, d2') == DirSecs(v2, d2');
    SameAsk(g, v3, d1, v, d1);
    SameAsk(g, v4, d2', v2, d2');
    if m.IsDir() {
      assert DirSecs(v2, dm) == DirSecs(v, dm);
      assert DirSecs(v4, dm) == DirSecs(v3, dm);
      SameAsk(g, v2, dm, v, dm);
      SameAsk(g, v4, dm, v3, dm);
    }
    forall r: DirRef | IsDirRef(g, v, r) && RefsApart(d1, r) && RefsApart(d2, r) && (m.IsDir() ==> RefsApart(dm, r))
      ensures DirSecs(v4, r) == DirSecs(v, r)
    {
      assert DirSecs(v2, r) == DirSecs(v1, r) && DirSecs(v3, r) == DirSecs(v2, r);
    }
  }

  lemma AskIsThere(g: Geo, v: Vol, d1: DirRef, n1: Name, d2: DirRef, n2: Name, dm: DirRef)
    requires Movable(g, v, d1, n1, d2, n2, dm)
    ensures (exists k: nat :: HasEnt(DirSecs(v, d1), n1, k)) && forall k: nat :: !HasEnt(DirSecs(v, d2), n2, k)
  {
  }

  lemma SameAsk(g: Geo, v: Vol, d: DirRef, w: Vol, e: DirRef)
    requires DirSecs(v, d) == DirSecs(w, e)
    ensures forall x :: Ask(g, v, d, x) == Ask(g, w, e, x)
  {
  }

  lemma DecodeFits(e: Ent, fat32: bool)
    ensures Decode(e, fat32).Fits(fat32)
  {
    forall o: nat | o + 2 <= 32
      ensures U16(e, o) < 0x1_0000
    {
      U16Is(e, o);
    }
    hide U16;
  }

  lemma MovedMeta(g: Geo, v: Vol, d: DirRef, n: Name, k: nat)
    requires DirOk(DirSecs(v, d)) && HasEnt(DirSecs(v, d), n, k)
    ensures Ask(g, v, d, n) == Some(Decode(Slot(DirSecs(v, d), k), g.fat32))
    ensures Decode(Slot(DirSecs(v, d), k), g.fat32).Fits(g.fat32) && Decode(Slot(DirSecs(v, d), k), g.fat32).attr != LFN
  {
    LookIs(DirSecs(v, d), n, g.fat32, k);
    DecodeFits(Slot(DirSecs(v, d), k), g.fat32);
  }

  lemma RefsKept(g: Geo, v: Vol, v': Vol)
    requires v'.t == v.t
    ensures forall r: DirRef :: IsDirRef(g, v, r) ==> IsDirRef(g, v', r)
  {
  }

  /** dir_rename_cross to a name that is not there: exactly one entry moves, with its cluster, size,
      attributes and time stamps; it fails only when the target directory cannot grow. */
  method RenameCross(vol: Volume, key1: nat, n1: Name, key2: nat, n2: Name, ghost d1: DirRef, ghost d2: DirRef,
      ghost dm: DirRef)
    returns (ok: bool, ghost d2': DirRef)
    requires vol.Valid() && Movable(vol.g, vol.v, d1, n1, d2, n2, dm) && key1 == KeyOf(d1) && key2 == KeyOf(d2)
    modifies vol, vol.disk
    ensures vol.Valid()
    ensures ok <==> !NoRoom(vol.g, old(vol.v), d2)
    ensures !ok ==> vol.v == old(vol.v)
    ensures ok ==> Moved(vol.g, old(vol.v), d1, n1, d2, n2, dm, vol.v, d2')
  {
    hide Rep, DirOk, CurAt, SlotWritten, Slot, PutEnt, HasEnt, Decode, Encode, Look, RefsApart, DirSecs, Taken,
         IsDirRef, KeyOf,
         Room, NoRoom, EntrySet, EntryGone, Moved, Ready, IsMovedDir;
    ghost var v := vol.v;
    AskIsThere(vol.g, v, d1, n1, d2, n2, dm);
    SpcPositive(vol);
    SizedIs(vol.g, vol.disk[..], vol.v);
    var found, cur, j;
    ghost var i, p;
    found, cur, j, i, p := FindEntry(vol, key1, n1, true, d1);
    d2' := d2;
    if !found { return false, d2; }
    CurFacts(vol.g, v, d1, cur, i, p);
    var sec := ReadAt(vol, cur, d1, i, p);
    var m := Decode(EntIn(sec, j), vol.g.fat32);
    SlotHere(DirSecs(v, d1), p, j);
    MovedMeta(vol.g, v, d1, n1, 16 * p + j);
    found, cur, j, i, p := FindEntry(vol, key2, n2, true, d2);
    if found { return false, d2; }
    ok, cur, j, d2', i, p := FindSlot(vol, key2, d2);
    if !ok { return; }
    ghost var v1 := vol.v;
    RoomReady(vol.g, v, d1, n1, d2, n2, dm, v1, d2');
    ok := MoveEntry(vol, cur, j, m, key1, n1, key2, n2, v, d1, d2, dm, d2', i, p);
  }

  method MoveEntry(vol: Volume, cur: Cursor, j: nat, m: Meta, key1: nat, n1: Name, key2: nat, n2: Name,
                   ghost v: Vol, ghost d1: DirRef, ghost d2: DirRef, ghost dm: DirRef, ghost d2': DirRef,
                   ghost i: nat, ghost p: nat)
    returns (ok: bool)
    requires vol.Valid() && Movable(vol.g, v, d1, n1, d2, n2, dm) && Ready(vol.g, v, d1, n1, d2, dm, vol.v, d2')
    requires key1 == KeyOf(d1) && key2 == KeyOf(d2) && Ask(vol.g, v, d1, n1) == Some(m) && m.Fits(vol.g.fat32) &&
             m.attr != LFN
    requires p < |DirSecs(vol.v, d2')| && CurAt(vol.g, d2', cur, i, p) && j < 16
    requires Taken(DirSecs(vol.v, d2'), 16 * p + j) && IsFree(Slot(DirSecs(vol.v, d2'), 16 * p + j))
    modifies vol, vol.disk
    ensures vol.Valid() && ok && Moved(vol.g, v, d1, n1, d2, n2, dm, vol.v, d2')
  {
    hide Rep, DirOk, CurAt, SlotWritten, Slot, PutEnt, HasEnt, Encode, Look, RefsApart, DirSecs, Taken, IsDirRef,
         KeyOf, Moved, IsMovedDir;
    SpcPositive(vol);
    ghost var v1 := vol.v;
    WriteSlot(vol, cur, j, Encode(n2, m), d2', i, p);
    AddedIs(vol.g, v1, d2', n2, m, p, j, vol.v);
    ghost var v2 := vol.v;
    RefsKept(vol.g, v1, v2);
    if m.IsDir() {
      MovedDirFacts(vol.g, v, d1, d2, dm, m, v1, v2);
      ok := UpdateDotDot(vol, m.clus, key2, dm);
      RefsKept(vol.g, v2, vol.v);
    }
    ghost var v3 := vol.v;
    var c;
    ok, c := DeleteEntry(vol, key1, n1, d1);
    RefsKept(vol.g, v3, vol.v);
    MoveSteps(vol.g, v, d1, n1, d2, n2, dm, v1, d2', v2, v3, vol.v);
  }

  lemma MovedDirFacts(g: Geo, v: Vol, d1: DirRef, d2: DirRef, dm: DirRef, m: Meta, v1: Vol, v2: Vol)
    requires IsMovedDir(g, v, d1, d2, dm, m) && DirSecs(v1, dm) == DirSecs(v, dm) && DirSecs(v2, dm) == DirSecs(v1, dm)
    requires IsDirRef(g, v2, dm) && IsDirRef(g, v, d2) && g.clusters + 2 <= g.Eof()
    ensures m.clus == KeyOf(dm) && dm.Chain? && DirOk(DirSecs(v2, dm)) && HasEnt(DirSecs(v2, dm), DotDot(), 1) &&
            KeyOf(d2) < g.clusters + 2
    ensures Ask(g, v, dm, DotDot()) == Some(Decode(Slot(DirSecs(v2, dm), 1), g.fat32))
  {
    LookIs(DirSecs(v, dm), DotDot(), g.fat32, 1);
    if d2.Chain? { assert LinkAt(g, v.t, d2.ch, 0); }
  }
}
