/** A FAT16 or FAT32 volume on a disk of 512-byte sectors: the FAT entry codec, the copies of the
    FAT, and clusters (kernel/fs/fat.c). Sector reads and writes succeed. */
module FatDisk {
  import opened Tiny

  const SECTOR := 512

  type Sector = s: seq<byte> | |s| == SECTOR witness seq(512, _ => 0)

  function ZeroSector(): Sector
  {
    seq(512, _ => 0)
  }

  /** What fat_mount learned from the boot sector. */
  datatype Geo = Geo(fat32: bool, spc: nat, nfats: nat, fatSz: nat, fat0: nat, rootLba: nat, rootSecs: nat,
                     rootClus: nat, dataLba: nat, clusters: nat)
  {
    /** FAT entries a sector holds, and the bytes of one. */
    function PerSec(): nat { if fat32 then 128 else 256 }

    function Width(): nat { if fat32 then 4 else 2 }

    /** Values an entry can hold. */
    function Top(): nat { if fat32 then 0x1000_0000 else 0x1_0000 }

    /** fat_eof_mark; fat_is_eof says at or above it. */
    function Eof(): nat { if fat32 then 0x0FFF_FFF8 else 0xFFF8 }

    predicate IsEof(c: nat) { c >= Eof() }

    /** Clusters are numbered from 2. */
    predicate IsCluster(c: nat) { 2 <= c < clusters + 2 }

    function ClusSize(): nat { spc * 512 }
  }

  ghost predicate GeoOk(g: Geo, total: nat)
  {
    && g.spc > 0 && g.nfats > 0 && g.fat0 + g.nfats * g.fatSz <= g.rootLba && g.rootLba + g.rootSecs <= g.dataLba
    && g.dataLba + g.clusters * g.spc <= total && g.clusters + 2 <= g.fatSz * g.PerSec()
    && g.clusters + 2 <= (if g.fat32 then 0x0FFF_FFF8 else 0xFFF8) && (g.fat32 ==> g.IsCluster(g.rootClus))
  }

  // ----- one entry in its sector -----

  function Le16(b0: int, b1: int): int
  {
    b0 + 256 * b1
  }

  function Le32(b0: int, b1: int, b2: int, b3: int): int
  {
    b0 + 256 * b1 + 0x1_0000 * b2 + 0x100_0000 * b3
  }

  /** The entry at byte `o`; the top four bits of a FAT32 entry do not count. */
  function Entry(g: Geo, s: Sector, o: nat): (v: nat)
    requires o + g.Width() <= SECTOR
    ensures v < g.Top()
  {
    if g.fat32 then Le32(s[o], s[o + 1], s[o + 2], s[o + 3]) % 0x1000_0000 else Le16(s[o], s[o + 1])
  }

  /** The sector with `v` for the entry at byte `o`; FAT32 keeps the top four bits. */
  function PutEntry(g: Geo, s: Sector, o: nat, v: nat): Sector
    requires o + g.Width() <= SECTOR
  {
    if g.fat32 then Put32(s, o, s[o + 3] / 16 * 0x1000_0000 + v % 0x1000_0000) else Put16(s, o, v)
  }

  function Put16(s: Sector, o: nat, v: nat): Sector
    requires o + 2 <= SECTOR
  {
    s[o := v % 256][o + 1 := v / 256 % 256]
  }

  function Put32(s: Sector, o: nat, v: nat): Sector
    requires o + 4 <= SECTOR
  {
    s[o := v % 256][o + 1 := v / 256 % 256][o + 2 := v / 0x1_0000 % 256][o + 3 := v / 0x100_0000 % 256]
  }

  lemma Digits16(n: nat)
    requires n < 0x1_0000
    ensures Le16(n % 256, n / 256 % 256) == n
  {
  }

  lemma Digits32(n: nat)
    requires n < 0x1_0000_0000
    ensures Le32(n % 256, n / 256 % 256, n / 0x1_0000 % 256, n / 0x100_0000 % 256) == n
  {
    var a := n / 256;
    var b := a / 256;
    assert n / 0x1_0000 == b;
    assert n / 0x100_0000 == b / 256;
    assert n == 256 * a + n % 256;
    assert a == 256 * b + a % 256;
    assert b == 256 * (b / 256) + b % 256;
  }

  /** Writing an entry changes that entry and no other, and keeps the top four bits of a FAT32 one. */
  lemma PutThenGet(g: Geo, s: Sector, o: nat, v: nat, p: nat)
    requires o + g.Width() <= SECTOR && p + g.Width() <= SECTOR && v < g.Top() &&
             (p == o || p + g.Width() <= o || o + g.Width() <= p)
    ensures Entry(g, PutEntry(g, s, o, v), p) == if p == o then v else Entry(g, s, p)
    ensures g.fat32 ==> PutEntry(g, s, o, v)[o + 3] / 16 == s[o + 3] / 16
  {
    hide Le16, Le32, Put16, Put32;
    if g.fat32 {
      HighNibble(s[o + 3], v);
      TopBits(s[o + 3], v);
      Put32Is(s, o, s[o + 3] / 16 * 0x1000_0000 + v, p);
    } else {
      Digits16(v);
      Put16Is(s, o, v, p);
    }
  }

  lemma Put16Is(s: Sector, o: nat, n: nat, p: nat)
    requires o + 2 <= SECTOR && p + 2 <= SECTOR
    ensures var r := Put16(s, o, n); r[o] == n % 256 && r[o + 1] == n / 256 % 256
    ensures p + 2 <= o || o + 2 <= p ==> var r := Put16(s, o, n); r[p] == s[p] && r[p + 1] == s[p + 1]
  {
  }

  lemma Put32Is(s: Sector, o: nat, n: nat, p: nat)
    requires o + 4 <= SECTOR && p + 4 <= SECTOR
    ensures var r := Put32(s, o, n);
            && r[o] == n % 256 && r[o + 1] == n / 256 % 256
            && r[o + 2] == n / 0x1_0000 % 256 && r[o + 3] == n / 0x100_0000 % 256
    ensures p + 4 <= o || o + 4 <= p ==>
              var r := Put32(s, o, n);
              r[p] == s[p] && r[p + 1] == s[p + 1] && r[p + 2] == s[p + 2] && r[p + 3] == s[p + 3]
  {
  }

  lemma HighNibble(b: byte, v: nat)
    requires v < 0x1000_0000
    ensures (b / 16 * 0x1000_0000 + v) / 0x100_0000 % 256 / 16 == b / 16
  {
    var n := b / 16 * 0x1000_0000 + v;
    assert n / 0x100_0000 == b / 16 * 16 + v / 0x100_0000;
    assert v / 0x100_0000 < 16;
  }

  lemma TopBits(b: byte, v: nat)
    requires v < 0x1000_0000
    ensures var n := b / 16 * 0x1000_0000 + v;
            Le32(n % 256, n / 256 % 256, n / 0x1_0000 % 256, n / 0x100_0000 % 256) % 0x1000_0000 == v
  {
    var n := b / 16 * 0x1000_0000 + v;
    Digits32(n);
    hide Le32;
    assert n % 0x1000_0000 == v;
  }

  // ----- where things are -----

  /** Sector `i` of FAT copy `f`. */
  function FatLba(g: Geo, f: nat, i: nat): nat
  {
    g.fat0 + f * g.fatSz + i
  }

  /** Sector `s` of cluster `c`. */
  function ClusLba(g: Geo, c: nat, s: nat): nat
    requires c >= 2
  {
    g.dataLba + (c - 2) * g.spc + s
  }

  lemma RowAfter(a: nat, b: nat, w: nat)
    requires a < b
    ensures a * w + w <= b * w
  {
    var k := b - a;
    assert b * w == a * w + k * w;
    assert k * w == w + (k - 1) * w;
  }

  lemma RowsApart(a: nat, i: nat, b: nat, j: nat, w: nat)
    requires i < w && j < w && a * w + i == b * w + j
    ensures a == b && i == j
  {
    if a < b { RowAfter(a, b, w); } else if b < a { RowAfter(b, a, w); }
  }

  lemma RowFits(base: nat, a: nat, n: nat, w: nat, i: nat, total: nat)
    requires a < n && i < w && base + n * w <= total
    ensures base + a * w + i < total
  {
    RowAfter(a, n, w);
  }

  lemma FatLbaFits(g: Geo, total: nat, f: nat, i: nat)
    requires GeoOk(g, total) && f < g.nfats && i < g.fatSz
    ensures g.fat0 <= FatLba(g, f, i) < g.rootLba
  {
    RowFits(g.fat0, f, g.nfats, g.fatSz, i, g.rootLba);
  }

  lemma ClusLbaFits(g: Geo, total: nat, c: nat, s: nat)
    requires GeoOk(g, total) && g.IsCluster(c) && s < g.spc
    ensures g.dataLba <= ClusLba(g, c, s) < total
  {
    assert g.dataLba + g.clusters * g.spc <= total;
    hide GeoOk;
    RowFits(g.dataLba, c - 2, g.clusters, g.spc, s, total);
  }

  /** The sector and the byte of the entry of cluster `c`. */
  function SecOf(g: Geo, c: nat): nat
  {
    c * g.Width() / 512
  }

  function OffOf(g: Geo, c: nat): nat
  {
    c * g.Width() % 512
  }

  lemma EntryPlace(g: Geo, total: nat, c: nat)
    requires GeoOk(g, total) && c < g.clusters + 2
    ensures SecOf(g, c) < g.fatSz && OffOf(g, c) + g.Width() <= SECTOR
  {
    assert c < g.fatSz * g.PerSec();
    hide GeoOk;
    Below512(c, g.Width(), g.fatSz);
  }

  lemma Below512(c: nat, w: nat, n: nat)
    requires w == 2 || w == 4
    requires c * w < n * 512
    ensures c * w / 512 < n && c * w % 512 + w <= 512
  {
  }

  lemma EntryApart(g: Geo, c: nat, e: nat)
    requires c != e && SecOf(g, c) == SecOf(g, e)
    ensures OffOf(g, c) + g.Width() <= OffOf(g, e) || OffOf(g, e) + g.Width() <= OffOf(g, c)
  {
  }

  // ----- the volume as a value -----

  type Cluster = seq<Sector>

  function Zeros(n: nat): Cluster
  {
    seq(n, _ => ZeroSector())
  }

  /** The FAT, the clusters and the fixed root directory of FAT16. */
  datatype Vol = Vol(t: seq<nat>, data: seq<Cluster>, root: seq<Sector>)
  {
    function WithFat(c: nat, e: nat): Vol
      requires c < |t|
    {
      Vol(t[c := e], data, root)
    }

    function WithCluster(c: nat, k: Cluster): Vol
      requires c < |data|
    {
      Vol(t, data[c := k], root)
    }

    function WithRoot(i: nat, s: Sector): Vol
      requires i < |root|
    {
      Vol(t, data, root[i := s])
    }
  }

  ghost predicate Sized(g: Geo, v: Vol)
  {
    && |v.t| == |v.data| == g.clusters + 2 && |v.root| == g.rootSecs
    && (forall c :: 0 <= c < |v.data| ==> |v.data[c]| == g.spc)
    && (forall c :: 0 <= c < |v.t| ==> v.t[c] < g.Top())
  }

  /** All copies of FAT sector `i` agree. */
  ghost predicate CopyAt(g: Geo, d: seq<Sector>, f: nat, i: nat)
  {
    f < g.nfats && i < g.fatSz && FatLba(g, f, i) < |d| && FatLba(g, 0, i) < |d| ==>
      d[FatLba(g, f, i)] == d[FatLba(g, 0, i)]
  }

  ghost predicate EntryAt(g: Geo, d: seq<Sector>, v: Vol, c: nat)
  {
    c < |v.t| ==> FatLba(g, 0, SecOf(g, c)) < |d| && OffOf(g, c) + g.Width() <= SECTOR &&
                  Entry(g, d[FatLba(g, 0, SecOf(g, c))], OffOf(g, c)) == v.t[c]
  }

  ghost predicate ClusAt(g: Geo, d: seq<Sector>, v: Vol, c: nat, s: nat)
  {
    g.IsCluster(c) && s < g.spc && c < |v.data| && s < |v.data[c]| && ClusLba(g, c, s) < |d| ==>
      d[ClusLba(g, c, s)] == v.data[c][s]
  }

  ghost predicate RootAt(g: Geo, d: seq<Sector>, v: Vol, s: nat)
  {
    s < |v.root| && g.rootLba + s < |d| ==> d[g.rootLba + s] == v.root[s]
  }

  /** The sectors hold the volume, with all copies of the FAT equal. */
  ghost predicate Rep(g: Geo, d: seq<Sector>, v: Vol)
  {
    && GeoOk(g, |d|) && Sized(g, v)
    && (forall f: nat, i: nat {:trigger CopyAt(g, d, f, i)} :: CopyAt(g, d, f, i))
    && (forall c: nat {:trigger EntryAt(g, d, v, c)} :: EntryAt(g, d, v, c))
    && (forall c: nat, s: nat {:trigger ClusAt(g, d, v, c, s)} :: ClusAt(g, d, v, c, s))
    && (forall s: nat {:trigger RootAt(g, d, v, s)} :: RootAt(g, d, v, s))
  }

  /** Sector `i` of the first `n` copies of the FAT is `sec`, nothing else changed. */
  ghost predicate Wrote(g: Geo, d: seq<Sector>, d': seq<Sector>, i: nat, sec: Sector, n: nat)
  {
    && |d'| == |d|
    && (forall f: nat {:trigger FatLba(g, f, i)} :: f < n && FatLba(g, f, i) < |d| ==> d'[FatLba(g, f, i)] == sec)
    && (forall k :: 0 <= k < |d| && !IsCopy(g, i, n, k) ==> d'[k] == d[k])
  }

  ghost predicate IsCopy(g: Geo, i: nat, n: nat, k: nat)
  {
    exists f: nat :: f < n && k == FatLba(g, f, i)
  }

  lemma WroteNext(g: Geo, d: seq<Sector>, d': seq<Sector>, i: nat, sec: Sector, n: nat)
    requires GeoOk(g, |d|) && Wrote(g, d, d', i, sec, n) && n < g.nfats && i < g.fatSz
    ensures FatLba(g, n, i) < |d'| && Wrote(g, d, d'[FatLba(g, n, i) := sec], i, sec, n + 1)
  {
    FatLbaFits(g, |d|, n, i);
    var d2 := d'[FatLba(g, n, i) := sec];
    forall f: nat | f < n + 1 && FatLba(g, f, i) < |d|
      ensures d2[FatLba(g, f, i)] == sec
    {
    }
    forall k | 0 <= k < |d| && !IsCopy(g, i, n + 1, k)
      ensures d2[k] == d[k]
    {
      assert !IsCopy(g, i, n, k);
    }
  }

  lemma CopyRegion(g: Geo, total: nat, i: nat, k: nat)
    requires GeoOk(g, total) && i < g.fatSz && IsCopy(g, i, g.nfats, k)
    ensures k < g.rootLba
  {
    var f: nat :| f < g.nfats && k == FatLba(g, f, i);
    FatLbaFits(g, total, f, i);
  }

  lemma CopyOther(g: Geo, i: nat, f: nat, j: nat)
    requires i < g.fatSz && j < g.fatSz && i != j
    ensures !IsCopy(g, i, g.nfats, FatLba(g, f, j))
  {
    forall e: nat
      ensures FatLba(g, e, i) != FatLba(g, f, j)
    {
      if FatLba(g, e, i) == FatLba(g, f, j) { RowsApart(e, i, f, j, g.fatSz); }
    }
  }

  /** fat_put. */
  lemma PutRep(g: Geo, d: seq<Sector>, d': seq<Sector>, v: Vol, c: nat, e: nat)
    requires Rep(g, d, v) && c < |v.t| && e < g.Top()
    requires FatLba(g, 0, SecOf(g, c)) < |d| && OffOf(g, c) + g.Width() <= SECTOR
    requires Wrote(g, d, d', SecOf(g, c), PutEntry(g, d[FatLba(g, 0, SecOf(g, c))], OffOf(g, c), e), g.nfats)
    ensures Rep(g, d', v.WithFat(c, e))
  {
    var i, v' := SecOf(g, c), v.WithFat(c, e);
    EntryPlace(g, |d|, c);
    hide PutEntry, Entry;
    forall f: nat, j: nat
      ensures CopyAt(g, d', f, j)
    {
      assert CopyAt(g, d, f, j);
      if j < g.fatSz && j != i { CopyOther(g, i, f, j); CopyOther(g, i, 0, j); }
    }
    forall x: nat
      ensures EntryAt(g, d', v', x)
    {
      if x < |v.t| { PutEntryAt(g, d, d', v, c, e, x); }
    }
    forall x: nat, s: nat
      ensures ClusAt(g, d', v', x, s)
    {
      assert ClusAt(g, d, v, x, s);
      if g.IsCluster(x) && s < g.spc {
        ClusLbaFits(g, |d|, x, s);
        if IsCopy(g, i, g.nfats, ClusLba(g, x, s)) { CopyRegion(g, |d|, i, ClusLba(g, x, s)); }
      }
    }
    forall s: nat
      ensures RootAt(g, d', v', s)
    {
      assert RootAt(g, d, v, s);
      if IsCopy(g, i, g.nfats, g.rootLba + s) { CopyRegion(g, |d|, i, g.rootLba + s); }
    }
  }

  lemma PutEntryAt(g: Geo, d: seq<Sector>, d': seq<Sector>, v: Vol, c: nat, e: nat, x: nat)
    requires Rep(g, d, v) && c < |v.t| && e < g.Top() && x < |v.t|
    requires FatLba(g, 0, SecOf(g, c)) < |d| && OffOf(g, c) + g.Width() <= SECTOR
    requires Wrote(g, d, d', SecOf(g, c), PutEntry(g, d[FatLba(g, 0, SecOf(g, c))], OffOf(g, c), e), g.nfats)
    ensures EntryAt(g, d', v.WithFat(c, e), x)
  {
    var i := SecOf(g, c);
    assert EntryAt(g, d, v, x);
    EntryPlace(g, |d|, c);
    EntryPlace(g, |d|, x);
    if SecOf(g, x) == i {
      if x != c { EntryApart(g, c, x); }
      PutThenGet(g, d[FatLba(g, 0, i)], OffOf(g, c), e, OffOf(g, x));
    } else {
      CopyOther(g, i, 0, SecOf(g, x));
    }
    hide PutEntry, Entry;
  }

  /** Sector `k` is as it was unless it is the one of entry `c` in a copy of the FAT; that one is as it was
      but for the bytes of the entry, whose top four bits stay in FAT32. */
  ghost predicate PutKeeps(g: Geo, d: seq<Sector>, d': seq<Sector>, c: nat, k: nat)
  {
    var w := if g.fat32 then 4 else 2;
    && (k < |d| == |d'| && d'[k] != d[k] ==> exists f: nat :: f < g.nfats && k == g.fat0 + f * g.fatSz + w * c / 512)
    && (k == g.fat0 + w * c / 512 && k < |d| == |d'| ==>
          && (forall i :: 0 <= i < 512 && !(w * c % 512 <= i < w * c % 512 + w) ==> d'[k][i] == d[k][i])
          && (g.fat32 && w * c % 512 + 3 < 512 ==> d'[k][w * c % 512 + 3] / 16 == d[k][w * c % 512 + 3] / 16))
  }

  lemma PutElse(g: Geo, d: seq<Sector>, d': seq<Sector>, c: nat, e: nat)
    requires GeoOk(g, |d|) && c < g.clusters + 2 && e < g.Top()
    requires FatLba(g, 0, SecOf(g, c)) < |d| && OffOf(g, c) + g.Width() <= SECTOR
    requires Wrote(g, d, d', SecOf(g, c), PutEntry(g, d[FatLba(g, 0, SecOf(g, c))], OffOf(g, c), e), g.nfats)
    ensures forall k: nat {:trigger PutKeeps(g, d, d', c, k)} :: PutKeeps(g, d, d', c, k)
  {
    var l := FatLba(g, 0, SecOf(g, c));
    PutThenGet(g, d[l], OffOf(g, c), e, OffOf(g, c));
    PutOnly(g, d[l], OffOf(g, c), e);
    hide PutEntry, Entry, GeoOk;
    forall k: nat
      ensures PutKeeps(g, d, d', c, k)
    {
      if k < |d| && d'[k] != d[k] {
        var f: nat :| f < g.nfats && k == FatLba(g, f, SecOf(g, c));
      }
    }
  }

  lemma PutOnly(g: Geo, s: Sector, o: nat, v: nat)
    requires o + g.Width() <= SECTOR
    ensures forall i :: 0 <= i < 512 && !(o <= i < o + g.Width()) ==> PutEntry(g, s, o, v)[i] == s[i]
  {
  }

  /** Every copy of the FAT is the first one. */
  lemma CopiesEqual(g: Geo, d: seq<Sector>, v: Vol, f: nat, i: nat)
    requires Rep(g, d, v) && f < g.nfats && i < g.fatSz
    ensures g.fat0 + f * g.fatSz + i < |d| && g.fat0 + i < |d| && d[g.fat0 + f * g.fatSz + i] == d[g.fat0 + i]
  {
    FatLbaFits(g, |d|, f, i);
    FatLbaFits(g, |d|, 0, i);
    assert CopyAt(g, d, f, i);
  }

  /** write_sector into cluster `c`. */
  lemma ClusRep(g: Geo, d: seq<Sector>, v: Vol, c: nat, s: nat, sec: Sector)
    requires Rep(g, d, v) && g.IsCluster(c) && s < g.spc
    ensures ClusLba(g, c, s) < |d| && Rep(g, d[ClusLba(g, c, s) := sec], v.WithCluster(c, v.data[c][s := sec]))
  {
    ClusLbaFits(g, |d|, c, s);
    var d', v' := d[ClusLba(g, c, s) := sec], v.WithCluster(c, v.data[c][s := sec]);
    forall f: nat, i: nat
      ensures CopyAt(g, d', f, i)
    {
      assert CopyAt(g, d, f, i);
      if f < g.nfats && i < g.fatSz { FatLbaFits(g, |d|, f, i); FatLbaFits(g, |d|, 0, i); }
    }
    forall x: nat
      ensures EntryAt(g, d', v', x)
    {
      assert EntryAt(g, d, v, x);
      if x < |v.t| { EntryPlace(g, |d|, x); FatLbaFits(g, |d|, 0, SecOf(g, x)); }
    }
    forall x: nat, r: nat
      ensures ClusAt(g, d', v', x, r)
    {
      assert ClusAt(g, d, v, x, r);
      if g.IsCluster(x) && r < g.spc && ClusLba(g, x, r) == ClusLba(g, c, s) { RowsApart(x - 2, r, c - 2, s, g.spc); }
    }
    forall r: nat
      ensures RootAt(g, d', v', r)
    {
      assert RootAt(g, d, v, r);
    }
  }

  /** write_sector into the fixed root directory. */
  lemma RootRep(g: Geo, d: seq<Sector>, v: Vol, s: nat, sec: Sector)
    requires Rep(g, d, v) && s < g.rootSecs
    ensures g.rootLba + s < |d| && Rep(g, d[g.rootLba + s := sec], v.WithRoot(s, sec))
  {
    DataAfterRoot(g, |d|);
    var d', v' := d[g.rootLba + s := sec], v.WithRoot(s, sec);
    forall f: nat, i: nat
      ensures CopyAt(g, d', f, i)
    {
      assert CopyAt(g, d, f, i);
      if f < g.nfats && i < g.fatSz { FatLbaFits(g, |d|, f, i); FatLbaFits(g, |d|, 0, i); }
    }
    forall x: nat
      ensures EntryAt(g, d', v', x)
    {
      assert EntryAt(g, d, v, x);
      if x < |v.t| { EntryPlace(g, |d|, x); FatLbaFits(g, |d|, 0, SecOf(g, x)); }
    }
    forall x: nat, r: nat
      ensures ClusAt(g, d', v', x, r)
    {
      assert ClusAt(g, d, v, x, r);
      if g.IsCluster(x) && r < g.spc { ClusLbaFits(g, |d|, x, r); }
    }
    forall r: nat
      ensures RootAt(g, d', v', r)
    {
      assert RootAt(g, d, v, r);
    }
  }

  lemma DataAfterRoot(g: Geo, total: nat)
    requires GeoOk(g, total)
    ensures g.rootLba + g.rootSecs <= total
  {
    assert g.clusters * g.spc >= 0;
  }

  function Blank(g: Geo): Vol
  {
    Vol(seq(g.clusters + 2, _ => 0), seq(g.clusters + 2, _ => Zeros(g.spc)), Zeros(g.rootSecs))
  }

  lemma BlankEntry(g: Geo, d: seq<Sector>, c: nat)
    requires GeoOk(g, |d|) && (forall k :: 0 <= k < |d| ==> d[k] == ZeroSector()) && c < g.clusters + 2
    ensures EntryAt(g, d, Blank(g), c)
  {
    hide FatLba, SecOf, OffOf;
    EntryPlace(g, |d|, c);
    FatLbaFits(g, |d|, 0, SecOf(g, c));
  }

  lemma BlankRep(g: Geo, d: seq<Sector>)
    requires GeoOk(g, |d|) && forall k :: 0 <= k < |d| ==> d[k] == ZeroSector()
    ensures Rep(g, d, Blank(g))
  {
    hide FatLba, ClusLba, SecOf, OffOf, Entry;
    var v := Blank(g);
    forall c: nat
      ensures EntryAt(g, d, v, c)
    {
      if c < g.clusters + 2 { BlankEntry(g, d, c); }
    }
    forall f: nat, i: nat
      ensures CopyAt(g, d, f, i)
    {
    }
    forall c: nat, s: nat
      ensures ClusAt(g, d, v, c, s)
    {
    }
    forall s: nat
      ensures RootAt(g, d, v, s)
    {
    }
  }

  /** Sector `l` holds a 32-bit little-endian number at byte `o` whose low 28 bits are `e`. */
  ghost predicate Holds32(d: seq<Sector>, l: nat, o: nat, e: nat)
  {
    && l < |d| && o + 4 <= 512
    && e == (d[l][o] as int + 0x100 * d[l][o + 1] as int + 0x1_0000 * d[l][o + 2] as int +
             0x100_0000 * d[l][o + 3] as int) % 0x1000_0000
  }

  /** Sector `l` holds the 16-bit little-endian number `e` at byte `o`. */
  ghost predicate Holds16(d: seq<Sector>, l: nat, o: nat, e: nat)
  {
    l < |d| && o + 2 <= 512 && e == d[l][o] as int + 0x100 * d[l][o + 1] as int
  }

  lemma EntryHolds(g: Geo, d: seq<Sector>, l: nat, o: nat)
    requires l < |d| && o + g.Width() <= SECTOR
    ensures g.fat32 ==> Holds32(d, l, o, Entry(g, d[l], o))
    ensures !g.fat32 ==> Holds16(d, l, o, Entry(g, d[l], o))
  {
  }

  lemma GetHolds(g: Geo, d: seq<Sector>, v: Vol, c: nat)
    requires Rep(g, d, v) && c < g.clusters + 2
    ensures FatLba(g, 0, SecOf(g, c)) < |d| && OffOf(g, c) + g.Width() <= SECTOR && c < |v.t|
    ensures Entry(g, d[FatLba(g, 0, SecOf(g, c))], OffOf(g, c)) == v.t[c]
    ensures g.fat32 ==> Holds32(d, g.fat0 + 4 * c / 512, 4 * c % 512, v.t[c])
    ensures !g.fat32 ==> Holds16(d, g.fat0 + 2 * c / 512, 2 * c % 512, v.t[c])
  {
    assert EntryAt(g, d, v, c);
    Places(g, c);
    hide *;
    EntryHolds(g, d, FatLba(g, 0, SecOf(g, c)), OffOf(g, c));
  }

  lemma Places(g: Geo, c: nat)
    ensures g.fat32 ==> FatLba(g, 0, SecOf(g, c)) == g.fat0 + 4 * c / 512 && OffOf(g, c) == 4 * c % 512
    ensures !g.fat32 ==> FatLba(g, 0, SecOf(g, c)) == g.fat0 + 2 * c / 512 && OffOf(g, c) == 2 * c % 512
  {
  }

  ghost predicate SecAt(d: seq<Sector>, l: int, sec: Sector)
  {
    0 <= l < |d| && d[l] == sec
  }

  /** Sector `l` is `sec` now; all others are as they were. */
  ghost predicate SecPut(d: seq<Sector>, d': seq<Sector>, l: int, sec: Sector)
  {
    0 <= l < |d| == |d'| && d'[l] == sec && forall k :: 0 <= k < |d| && k != l ==> d'[k] == d[k]
  }

  class Volume {
    const g: Geo
    const disk: array<Sector>
    ghost var v: Vol

    ghost predicate Valid()
      reads this, disk
    {
      Rep(g, disk[..], v)
    }

    /** A volume of zeros: every cluster free, no directory entry. */
    constructor (g: Geo, total: nat)
      requires GeoOk(g, total)
      ensures Valid() && this.g == g && fresh(disk) && v == Blank(g)
    {
      this.g := g;
      disk := new Sector[total](_ => ZeroSector());
      v := Blank(g);
      new;
      BlankRep(g, disk[..]);
    }

    /** fat_get: the entry of the FAT, and the bytes of the first copy it is made of. */
    method Get(c: nat) returns (e: nat)
      requires Valid() && c < g.clusters + 2
      ensures e == v.t[c]
      ensures g.fat32 ==> Holds32(disk[..], g.fat0 + 4 * c / 512, 4 * c % 512, e)
      ensures !g.fat32 ==> Holds16(disk[..], g.fat0 + 2 * c / 512, 2 * c % 512, e)
    {
      GetHolds(g, disk[..], v, c);
      hide *;
      e := Entry(g, disk[FatLba(g, 0, SecOf(g, c))], OffOf(g, c));
    }

    /** fat_put: the sector is read from the first copy and written to all. */
    method Put(c: nat, e: nat)
      requires Valid() && c < g.clusters + 2 && e < g.Top()
      modifies this, disk
      ensures Valid() && v == old(v).WithFat(c, e)
      ensures forall k: nat {:trigger PutKeeps(g, old(disk[..]), disk[..], c, k)} ::
                PutKeeps(g, old(disk[..]), disk[..], c, k)
    {
      ghost var d := disk[..];
      assert EntryAt(g, d, v, c);
      EntryPlace(g, |d|, c);
      FatLbaFits(g, |d|, 0, SecOf(g, c));
      hide Entry, PutEntry, Rep;
      var i := SecOf(g, c);
      var sec := PutEntry(g, disk[FatLba(g, 0, i)], OffOf(g, c), e);
      SizedIs(g, d, v);
      var f := 0;
      while f < g.nfats
        invariant f <= g.nfats && v == old(v) && Wrote(g, d, disk[..], i, sec, f)
      {
        WroteNext(g, d, disk[..], i, sec, f);
        disk[FatLba(g, f, i)] := sec;
        f := f + 1;
      }
      PutRep(g, d, disk[..], v, c, e);
      PutElse(g, d, disk[..], c, e);
      v := v.WithFat(c, e);
    }

    /** read_sector in cluster `c`. */
    method ReadClus(c: nat, s: nat) returns (sec: Sector)
      requires Valid() && g.IsCluster(c) && s < g.spc
      ensures sec == v.data[c][s]
      ensures SecAt(disk[..], g.dataLba + (c - 2) * g.spc + s, sec)
    {
      ClusLbaFits(g, disk.Length, c, s);
      assert ClusAt(g, disk[..], v, c, s);
      sec := disk[ClusLba(g, c, s)];
    }

    method WriteClus(c: nat, s: nat, sec: Sector)
      requires Valid() && g.IsCluster(c) && s < g.spc
      modifies this, disk
      ensures Valid() && v == old(v).WithCluster(c, old(v).data[c][s := sec])
      ensures SecPut(old(disk[..]), disk[..], g.dataLba + (c - 2) * g.spc + s, sec)
    {
      ClusRep(g, disk[..], v, c, s, sec);
      disk[ClusLba(g, c, s)] := sec;
      v := v.WithCluster(c, v.data[c][s := sec]);
    }

    method ReadRoot(s: nat) returns (sec: Sector)
      requires Valid() && s < g.rootSecs
      ensures sec == v.root[s] && SecAt(disk[..], g.rootLba + s, sec)
    {
      DataAfterRoot(g, disk.Length);
      assert RootAt(g, disk[..], v, s);
      sec := disk[g.rootLba + s];
    }

    method WriteRoot(s: nat, sec: Sector)
      requires Valid() && s < g.rootSecs
      modifies this, disk
      ensures Valid() && v == old(v).WithRoot(s, sec)
      ensures SecPut(old(disk[..]), disk[..], g.rootLba + s, sec)
    {
      RootRep(g, disk[..], v, s, sec);
      disk[g.rootLba + s] := sec;
      v := v.WithRoot(s, sec);
    }

    /** zero_cluster. */
    method ZeroCluster(c: nat)
      requires Valid() && g.IsCluster(c)
      modifies this, disk
      ensures Valid() && v == old(v).WithCluster(c, Zeros(g.spc))
      ensures forall s, i :: 0 <= s < g.spc && 0 <= i < 512 ==> v.data[c][s][i] == 0
    {
      hide Rep;
      SizedIs(g, disk[..], v);
      var s := 0;
      while s < g.spc
        invariant s <= g.spc && Valid() && |v.data| == |old(v).data| && |v.data[c]| == g.spc
        invariant v == old(v).WithCluster(c, v.data[c])
        invariant forall i :: 0 <= i < s ==> v.data[c][i] == ZeroSector()
      {
        WriteClus(c, s, ZeroSector());
        s := s + 1;
      }
      assert v.data[c] == Zeros(g.spc);
    }
  }

  lemma SizedIs(g: Geo, d: seq<Sector>, v: Vol)
    requires Rep(g, d, v)
    ensures Sized(g, v) && GeoOk(g, |d|)
  {
  }
}
