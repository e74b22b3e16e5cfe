/** Small FAT16 volumes, given by their sectors, on which a create and a write do less than they should
    (kernel/fs/fat.c). */
module FatCases {
  import opened Tiny
  import opened FatDisk
  import opened FatChain
  import opened FatFile
  import opened FatDir
  import opened FatEdit
  import opened FatRename
  import opened FatOps

  /** One FAT of one sector, a root directory of one sector, and `n` clusters of one sector. */
  function SmallGeo(n: nat): Geo
  {
    Geo(false, 1, 1, 1, 1, 2, 1, 0, 3, n)
  }

  function SmallDisk(fat: Sector, root: Sector, cl: seq<Sector>): seq<Sector>
  {
    [ZeroSector(), fat, root] + cl
  }

  function SmallVol(t: seq<nat>, root: Sector, cl: seq<Sector>): Vol
  {
    Vol(t, [Zeros(1), Zeros(1)] + seq(|cl|, i requires 0 <= i < |cl| => [cl[i]]), [root])
  }

  /** FAT entry `c`. */
  predicate FatSays(fat: Sector, t: seq<nat>, c: nat)
  {
    2 * c + 1 < SECTOR && c < |t| ==> Le16(fat[2 * c], fat[2 * c + 1]) == t[c]
  }

  lemma SmallEntry(fat: Sector, t: seq<nat>, root: Sector, cl: seq<Sector>, c: nat)
    requires |t| == |cl| + 2 <= 256 && FatSays(fat, t, c)
    ensures EntryAt(SmallGeo(|cl|), SmallDisk(fat, root, cl), SmallVol(t, root, cl), c)
  {
    hide ZeroSector, Zeros;
    if c < |t| {
      assert SecOf(SmallGeo(|cl|), c) == 0 && OffOf(SmallGeo(|cl|), c) == 2 * c;
      assert SmallDisk(fat, root, cl)[1] == fat;
    }
  }

  lemma SmallCluster(fat: Sector, t: seq<nat>, root: Sector, cl: seq<Sector>, c: nat, s: nat)
    requires |t| == |cl| + 2
    ensures ClusAt(SmallGeo(|cl|), SmallDisk(fat, root, cl), SmallVol(t, root, cl), c, s)
  {
    hide ZeroSector, Zeros;
    if SmallGeo(|cl|).IsCluster(c) && s < 1 {
      assert ClusLba(SmallGeo(|cl|), c, s) == c + 1;
      assert SmallDisk(fat, root, cl)[c + 1] == cl[c - 2];
    }
  }

  lemma SmallSized(fat: Sector, t: seq<nat>, root: Sector, cl: seq<Sector>)
    requires |t| == |cl| + 2 <= 256 && forall c :: 0 <= c < |t| ==> t[c] < 0x1_0000
    ensures GeoOk(SmallGeo(|cl|), |SmallDisk(fat, root, cl)|) && Sized(SmallGeo(|cl|), SmallVol(t, root, cl))
    ensures forall f: nat, i: nat :: CopyAt(SmallGeo(|cl|), SmallDisk(fat, root, cl), f, i)
    ensures forall s: nat :: RootAt(SmallGeo(|cl|), SmallDisk(fat, root, cl), SmallVol(t, root, cl), s)
  {
    hide ZeroSector;
  }

  /** The sectors hold the volume. */
  lemma SmallRep(fat: Sector, t: seq<nat>, root: Sector, cl: seq<Sector>)
    requires |t| == |cl| + 2 <= 256 && forall c :: 0 <= c < |t| ==> t[c] < 0x1_0000
    requires forall c: nat :: FatSays(fat, t, c)
    ensures Rep(SmallGeo(|cl|), SmallDisk(fat, root, cl), SmallVol(t, root, cl))
  {
    SmallSized(fat, t, root, cl);
    var g, d, v := SmallGeo(|cl|), SmallDisk(fat, root, cl), SmallVol(t, root, cl);
    hide SmallGeo, SmallDisk, SmallVol, GeoOk, Sized, CopyAt, EntryAt, ClusAt, RootAt, FatSays;
    forall c: nat
      ensures EntryAt(g, d, v, c)
    {
      SmallEntry(fat, t, root, cl, c);
    }
    forall c: nat, s: nat
      ensures ClusAt(g, d, v, c, s)
    {
      SmallCluster(fat, t, root, cl, c, s);
    }
  }

  // ----- a create that wastes its cluster -----

  /** Sixteen files: the name of the k-th is eleven times the byte k + 1. */
  function FullSector(): Sector
  {
    seq(512, (i: nat) => if i % 32 == 11 then 0x20 else if i < 512 then i / 32 + 1 else 0)
  }

  /** The reserved entries, and every cluster free. */
  function FreshFat(): Sector
  {
    seq(512, (i: nat) => if i == 0 then 0xF8 else if i < 4 then 0xFF else 0)
  }

  function FullVol(): Vol
  {
    SmallVol([0xFFF8, 0xFFFF, 0], FullSector(), [ZeroSector()])
  }

  lemma FullSlot(k: nat)
    requires k < 16
    ensures var e := Slot([FullSector()], k);
            e[0] == (k + 1) as byte && e[11] == 0x20 && Live(e) && !IsEnd(e) && e[..11][0] == (k + 1) as byte
  {
    assert [FullSector()][k / 16] == FullSector() && k % 16 == k;
    assert (k * 32) / 32 == k && (k * 32 + 11) % 32 == 11 && (k * 32) % 32 == 0;
  }

  lemma FreshSays(c: nat)
    ensures FatSays(FreshFat(), [0xFFF8, 0xFFFF, 0], c)
  {
    var f := FreshFat();
    assert f[0] == 0xF8 && f[1] == 0xFF && f[2] == 0xFF && f[3] == 0xFF && f[4] == 0 && f[5] == 0;
  }

  /** The sectors hold that volume, its root directory is in order, and creating a file whose name does not
      begin with one of those bytes wastes its only cluster. */
  lemma CreateWastes(n: Name)
    requires n[0] > 16
    ensures Rep(SmallGeo(1), SmallDisk(FreshFat(), FullSector(), [ZeroSector()]), FullVol())
    ensures IsDirRef(SmallGeo(1), FullVol(), Fixed) && DirOk(DirSecs(FullVol(), Fixed))
    ensures Ask(SmallGeo(1), FullVol(), Fixed, n) == None && Wasteful(SmallGeo(1), FullVol(), Fixed)
  {
    forall c: nat
      ensures FatSays(FreshFat(), [0xFFF8, 0xFFFF, 0], c)
    {
      FreshSays(c);
    }
    SmallRep(FreshFat(), [0xFFF8, 0xFFFF, 0], FullSector(), [ZeroSector()]);
    var secs := [FullSector()];
    assert DirSecs(FullVol(), Fixed) == secs;
    assert FullVol().t[2] == 0 && SmallGeo(1).IsCluster(2);
    hide FullSector, Rep, FatSays, SmallDisk;
    forall j: nat, k: nat
      ensures OrderOk(secs, j, k)
    {
      if j < k < 16 { FullSlot(j); FullSlot(k); }
    }
    forall k: nat
      ensures !HasEnt(secs, n, k)
    {
      if k < 16 { FullSlot(k); }
    }
    forall a: nat | a < 16
      ensures !IsFree(Slot(secs, a))
    {
      FullSlot(a);
    }
  }

  // ----- a write to a file below the root -----

  /** The directory in cluster 2 has the one entry `n`, of the one-byte file in cluster 3. The root is empty. */
  function OneByte(): Meta
  {
    Meta(0x20, 3, 1, 0, 0, 0, 0, 0)
  }

  function SubSector(n: Name): Sector
  {
    Encode(n, OneByte()) + seq(480, _ => 0)
  }

  function SubFat(): Sector
  {
    seq(512, (i: nat) => if i < 8 then (if i % 2 == 0 && i != 2 then 0xF8 else 0xFF) else 0)
  }

  function SubTable(): seq<nat>
  {
    [0xFFF8, 0xFFFF, 0xFFF8, 0xFFF8, 0]
  }

  function SubVol(n: Name): Vol
  {
    SmallVol(SubTable(), ZeroSector(), [SubSector(n), ZeroSector(), ZeroSector()])
  }

  lemma SubSays(c: nat)
    ensures FatSays(SubFat(), SubTable(), c)
  {
    var f := SubFat();
    assert f[0] == 0xF8 && f[1] == 0xFF && f[2] == 0xFF && f[3] == 0xFF && f[4] == 0xF8 && f[5] == 0xFF;
    assert f[6] == 0xF8 && f[7] == 0xFF && f[8] == 0 && f[9] == 0;
  }

  lemma SubChains()
    ensures ChainsOk(SmallGeo(3), SubTable(), [[2], [3]])
  {
    var g, t := SmallGeo(3), SubTable();
    forall i: nat
      ensures LinkAt(g, t, [2], i) && LinkAt(g, t, [3], i)
    {
    }
    forall j: nat, a: nat, k: nat, b: nat
      ensures Apart([[2], [3]], j, a, k, b)
    {
    }
  }

  lemma ZeroSlot(k: nat)
    requires k < 16
    ensures Slot([ZeroSector()], k)[0] == 0
  {
  }

  lemma SubSlot(n: Name, k: nat)
    requires k < 16
    ensures Slot([SubSector(n)], 0) == Encode(n, OneByte())
    ensures k > 0 ==> Slot([SubSector(n)], k)[0] == 0
  {
    hide Encode;
    assert [SubSector(n)][k / 16] == SubSector(n) && k % 16 == k;
  }

  lemma SubSecs(n: Name)
    ensures DirSecs(SubVol(n), Chain([2])) == [SubSector(n)] && DirSecs(SubVol(n), Fixed) == [ZeroSector()]
    ensures |Flat(SubVol(n).data, [3])| == 512
  {
    var v := SubVol(n);
    hide SubSector, ZeroSector;
    assert v.data[2] == [SubSector(n)] && v.data[3] == [ZeroSector()];
    assert Secs(v.data, []) == [] && Flat(v.data, []) == [] && [2][1..] == [] && [3][1..] == [];
    assert ClusBytes([ZeroSector()]) == ZeroSector() + ClusBytes([]) && ClusBytes([]) == [];
  }

  /** The sectors hold that volume, and everything a write to the file needs is there: with any byte past its
      end the entry is out of date afterwards. */
  lemma BelowGoesStale(n: Name)
    requires Plain(n)
    ensures Rep(SmallGeo(3), SmallDisk(SubFat(), ZeroSector(), [SubSector(n), ZeroSector(), ZeroSector()]), SubVol(n))
    ensures ChainsOk(SmallGeo(3), SubVol(n).t, [[2], [3]]) && IsRoot(SmallGeo(3), SubVol(n), [[2], [3]], 1, Fixed)
    ensures DirOk(DirSecs(SubVol(n), Fixed)) && |Flat(SubVol(n).data, [3])| >= 1
    ensures Ask(SmallGeo(3), SubVol(n), Chain([2]), n) == Some(OneByte()) && OneByte().clus == 3 && OneByte().size == 1
  {
    forall c: nat
      ensures FatSays(SubFat(), SubTable(), c)
    {
      SubSays(c);
    }
    SmallRep(SubFat(), SubTable(), ZeroSector(), [SubSector(n), ZeroSector(), ZeroSector()]);
    SubChains();
    SubSecs(n);
    SubLook(n);
    hide Rep, FatSays, SmallDisk, SubSector, DirSecs, Flat, Look, ChainsOk, Encode;
    forall j: nat, k: nat
      ensures OrderOk([ZeroSector()], j, k)
    {
      if j < k < 16 { ZeroSlot(j); ZeroSlot(k); }
    }
  }

  lemma SubLook(n: Name)
    requires Plain(n)
    ensures Look([SubSector(n)], n, false) == Some(OneByte())
  {
    var secs := [SubSector(n)];
    DecodeEncode(n, OneByte(), false);
    SubSlot(n, 0);
    assert Encode(n, OneByte())[11] == 0x20 && Encode(n, OneByte())[0] == n[0];
    hide SubSector, Encode, Decode;
    forall j: nat, k: nat
      ensures OrderOk(secs, j, k)
    {
      if j < k < 16 { SubSlot(n, j); SubSlot(n, k); }
    }
    LookIs(secs, n, false, 0);
  }
}
