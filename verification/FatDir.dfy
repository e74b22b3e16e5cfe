/** Directories: 32-byte entries in the sectors of a fixed root or of a cluster chain, and the
    scanners over them (kernel/fs/fat.c). */
module FatDir {
  import opened Tiny
  import opened FatDisk
  import opened FatChain
  import opened FatFile

  // ----- one entry -----

  type Ent = e: seq<byte> | |e| == 32 witness seq(32, _ => 0)

  type Name = n: seq<byte> | |n| == 11 witness seq(11, _ => 32)

  const DELETED: byte := 0xE5
  const LFN: byte := 0x0F
  const ATTR_DIR := 0x10

  predicate IsEnd(e: Ent) { e[0] == 0 }

  predicate IsFree(e: Ent) { e[0] == 0 || e[0] == DELETED }

  predicate Live(e: Ent) { !IsFree(e) && e[11] != LFN }

  predicate Matches(e: Ent, n: Name) { Live(e) && e[..11] == n }

  /** A name a live entry can have. */
  predicate Plain(n: Name) { n[0] != 0 && n[0] != DELETED }

  /** struct fat_dirent_meta: attributes, first cluster, size and the five time stamps. */
  datatype Meta = Meta(attr: byte, clus: nat, size: nat, crtTime: nat, crtDate: nat, accDate: nat, wrtTime: nat,
      wrtDate: nat)
  {
    predicate Fits(fat32: bool)
    {
      && clus < (if fat32 then 0x1_0000_0000 else 0x1_0000) && size < 0x1_0000_0000
      && crtTime < 0x1_0000 && crtDate < 0x1_0000 && accDate < 0x1_0000 && wrtTime < 0x1_0000 && wrtDate < 0x1_0000
    }

    /** Bit 4 of the attributes. */
    predicate IsDir() { attr / 16 % 2 == 1 }
  }

  function Low(n: nat): byte { n % 256 }

  function High(n: nat): byte { n / 256 % 256 }

  /** Bytes as a number, the least significant first. */
  function Number(b: seq<byte>): nat
  {
    if b == [] then 0 else b[0] + 256 * Number(b[1..])
  }

  function U16(e: Ent, o: nat): nat
    requires o + 2 <= 32
  {
    Number(e[o..o + 2])
  }

  lemma U16Is(e: Ent, o: nat)
    requires o + 2 <= 32
    ensures U16(e, o) == Le16(e[o], e[o + 1])
  {
    var b := e[o..o + 2];
    assert b[1..] == [e[o + 1]] && [e[o + 1]][1..] == [];
    assert Number([e[o + 1]]) == e[o + 1] + 256 * Number([]);
  }

  /** The first cluster in an entry; FAT16 looks at the low half only. */
  function ClusOf(e: Ent, fat32: bool): nat
  {
    if fat32 then U16(e, 26) + 0x1_0000 * U16(e, 20) else U16(e, 26)
  }

  /** What find_in_dir reads out of an entry. */
  function Decode(e: Ent, fat32: bool): Meta
  {
    Meta(e[11], ClusOf(e, fat32), U16(e, 28) + 0x1_0000 * U16(e, 30), U16(e, 14), U16(e, 16),
         U16(e, 18), U16(e, 22), U16(e, 24))
  }

  /** Byte by byte: the first cluster is at 26 and, in FAT32, 20; the size at 28; the stamps at 14 to 19 and
      22 to 25. */
  lemma DecodeBytes(e: Ent, fat32: bool)
    ensures var m := Decode(e, fat32);
            && m.attr == e[11] && m.size == Le32(e[28], e[29], e[30], e[31])
            && m.clus == (if fat32 then Le32(e[26], e[27], e[20], e[21]) else Le16(e[26], e[27]))
            && m.crtTime == Le16(e[14], e[15]) && m.crtDate == Le16(e[16], e[17]) && m.accDate == Le16(e[18], e[19])
            && m.wrtTime == Le16(e[22], e[23]) && m.wrtDate == Le16(e[24], e[25])
  {
    hide U16;
    U16Is(e, 14);
    U16Is(e, 16);
    U16Is(e, 18);
    U16Is(e, 20);
    U16Is(e, 22);
    U16Is(e, 24);
    U16Is(e, 26);
    U16Is(e, 28);
    U16Is(e, 30);
  }

  /** fill_83_dirent with the time stamps of `m`. */
  function Encode(n: Name, m: Meta): (e: Ent)
  {
    n + [m.attr, 0, 0] + Pair(m.crtTime) + Pair(m.crtDate) + Pair(m.accDate) + Pair(m.clus / 0x1_0000) +
    Pair(m.wrtTime) + Pair(m.wrtDate) + Pair(m.clus % 0x1_0000) + Pair(m.size % 0x1_0000) + Pair(m.size / 0x1_0000)
  }

  function Pair(n: nat): (r: seq<byte>)
    ensures |r| == 2
  {
    [Low(n), High(n)]
  }

  lemma PairBack(n: nat)
    requires n < 0x1_0000
    ensures Le16(Low(n), High(n)) == n
  {
  }

  predicate PairAt(e: Ent, o: nat, n: nat)
  {
    o + 2 <= 32 && e[o] == Low(n) && e[o + 1] == High(n)
  }

  lemma EncodeBytes(n: Name, m: Meta)
    ensures var e := Encode(n, m);
            && e[..11] == n && e[11] == m.attr && PairAt(e, 14, m.crtTime) && PairAt(e, 16, m.crtDate)
            && PairAt(e, 18, m.accDate)
            && PairAt(e, 20, m.clus / 0x1_0000) && PairAt(e, 22, m.wrtTime) && PairAt(e, 24, m.wrtDate)
            && PairAt(e, 26, m.clus % 0x1_0000) && PairAt(e, 28, m.size % 0x1_0000) && PairAt(e, 30, m.size / 0x1_0000)
  {
    hide Low, High;
  }

  lemma ReadPair(e: Ent, o: nat, n: nat)
    requires PairAt(e, o, n) && n < 0x1_0000
    ensures U16(e, o) == n
  {
    PairBack(n);
    U16Is(e, o);
  }

  /** What is written into an entry is what is read back. */
  lemma DecodeEncode(n: Name, m: Meta, fat32: bool)
    requires m.Fits(fat32)
    ensures Decode(Encode(n, m), fat32) == m && Encode(n, m)[..11] == n
  {
    hide Encode, U16, PairAt;
    var e := Encode(n, m);
    EncodeBytes(n, m);
    ReadPair(e, 14, m.crtTime);
    ReadPair(e, 16, m.crtDate);
    ReadPair(e, 18, m.accDate);
    ReadPair(e, 20, m.clus / 0x1_0000);
    ReadPair(e, 22, m.wrtTime);
    ReadPair(e, 24, m.wrtDate);
    ReadPair(e, 26, m.clus % 0x1_0000);
    ReadPair(e, 28, m.size % 0x1_0000);
    ReadPair(e, 30, m.size / 0x1_0000);
  }

  // ----- a directory as sectors of slots -----

  function Slot(secs: seq<Sector>, k: nat): Ent
    requires k < 16 * |secs|
  {
    secs[k / 16][k % 16 * 32..k % 16 * 32 + 32]
  }

  function PutEnt(s: Sector, j: nat, e: Ent): Sector
    requires j < 16
  {
    s[..j * 32] + e + s[j * 32 + 32..]
  }

  function PutSlot(secs: seq<Sector>, k: nat, e: Ent): (r: seq<Sector>)
    requires k < 16 * |secs|
    ensures |r| == |secs|
  {
    secs[k / 16 := PutEnt(secs[k / 16], k % 16, e)]
  }

  lemma EntPut(s: Sector, j: nat, e: Ent, i: nat)
    requires j < 16 && i < 16
    ensures PutEnt(s, j, e)[i * 32..i * 32 + 32] == if i == j then e else s[i * 32..i * 32 + 32]
  {
    if i < j {
      assert PutEnt(s, j, e)[i * 32..i * 32 + 32] == s[i * 32..i * 32 + 32];
    } else if i > j {
      assert PutEnt(s, j, e)[i * 32..i * 32 + 32] == s[i * 32..i * 32 + 32];
    }
  }

  /** Writing one slot changes that slot and no other. */
  lemma SlotPut(secs: seq<Sector>, k: nat, e: Ent, i: nat)
    requires k < 16 * |secs| && i < 16 * |secs|
    ensures Slot(PutSlot(secs, k, e), i) == if i == k then e else Slot(secs, i)
  {
    if i / 16 == k / 16 {
      EntPut(secs[k / 16], k % 16, e, i % 16);
    }
    hide PutEnt;
  }

  /** No live entry follows an end marker, and no two live entries have the same name. */
  predicate OrderOk(secs: seq<Sector>, j: nat, k: nat)
  {
    j < k < 16 * |secs| ==>
      && (IsEnd(Slot(secs, j)) ==> !Live(Slot(secs, k)))
      && (Live(Slot(secs, j)) && Live(Slot(secs, k)) ==> Slot(secs, j)[..11] != Slot(secs, k)[..11])
  }

  ghost predicate DirOk(secs: seq<Sector>)
  {
    forall j: nat, k: nat {:trigger OrderOk(secs, j, k)} :: OrderOk(secs, j, k)
  }

  /** Slot `k` is the live entry named `n`. */
  predicate HasEnt(secs: seq<Sector>, n: Name, k: nat)
  {
    k < 16 * |secs| && Matches(Slot(secs, k), n)
  }

  /** What HasEnt means byte by byte: slot `k` is neither free nor deleted nor part of a long name, and begins with
      the name. */
  lemma EntBytes(secs: seq<Sector>, n: Name, k: nat)
    requires k < 16 * |secs|
    ensures HasEnt(secs, n, k) <==>
            var e := secs[k / 16][k % 16 * 32..k % 16 * 32 + 32];
            e[0] != 0 && e[0] != 0xE5 && e[11] != 0x0F && forall i :: 0 <= i < 11 ==> e[i] == n[i]
  {
    var e := Slot(secs, k);
    assert HasEnt(secs, n, k) <==> Matches(e, n);
    if e[..11] == n {
      forall i | 0 <= i < 11
        ensures e[i] == n[i]
      {
        assert e[..11][i] == e[i];
      }
    } else {
      assert exists i :: 0 <= i < 11 && e[..11][i] != n[i];
    }
  }

  lemma OneEnt(secs: seq<Sector>, n: Name, j: nat, k: nat)
    requires DirOk(secs) && HasEnt(secs, n, j) && HasEnt(secs, n, k)
    ensures j == k
  {
    assert OrderOk(secs, j, k) && OrderOk(secs, k, j);
  }

  // ----- where a directory lies -----

  /** The fixed root of FAT16, or a cluster chain. */
  datatype DirRef = Fixed | Chain(ch: seq<nat>)

  function Secs(data: seq<Cluster>, ch: seq<nat>): seq<Sector>
  {
    if ch == [] || ch[0] >= |data| then [] else data[ch[0]] + Secs(data, ch[1..])
  }

  function DirSecs(v: Vol, d: DirRef): seq<Sector>
  {
    match d
    case Fixed => v.root
    case Chain(ch) => Secs(v.data, ch)
  }

  lemma {:induction false} SecsCat(data: seq<Cluster>, a: seq<nat>, b: seq<nat>)
    requires InData(data, a) && InData(data, b)
    ensures Secs(data, a + b) == Secs(data, a) + Secs(data, b)
  {
    if a == [] {
      assert a + b == b;
    } else {
      SecsCat(data, a[1..], b);
      assert (a + b)[1..] == a[1..] + b;
    }
  }

  lemma {:induction false} SecsLen(data: seq<Cluster>, ch: seq<nat>, spc: nat)
    requires Uniform(data, spc) && InData(data, ch)
    ensures |Secs(data, ch)| == |ch| * spc
  {
    if ch != [] {
      SecsLen(data, ch[1..], spc);
      assert |ch| * spc == (|ch| - 1) * spc + spc;
    }
  }

  lemma SecsOne(data: seq<Cluster>, c: nat)
    requires c < |data|
    ensures Secs(data, [c]) == data[c]
  {
    assert [c][1..] == [];
  }

  lemma SecsParts(data: seq<Cluster>, ch: seq<nat>, i: nat)
    requires InData(data, ch) && i < |ch|
    ensures Secs(data, ch) == Secs(data, ch[..i]) + data[ch[i]] + Secs(data, ch[i + 1..])
  {
    var a, b := ch[..i], ch[i + 1..];
    assert ch == a + ([ch[i]] + b);
    SecsCat(data, a, [ch[i]] + b);
    SecsCat(data, [ch[i]], b);
    SecsOne(data, ch[i]);
    hide Secs;
  }

  lemma {:induction false} SecsFrame(data: seq<Cluster>, data': seq<Cluster>, ch: seq<nat>)
    requires |data'| == |data| && InData(data, ch) && forall i :: 0 <= i < |ch| ==> data'[ch[i]] == data[ch[i]]
    ensures Secs(data', ch) == Secs(data, ch)
  {
    if ch != [] { SecsFrame(data, data', ch[1..]); }
  }

  /** Sector `s` of cluster `i` of the chain. */
  lemma SecsAt(data: seq<Cluster>, ch: seq<nat>, spc: nat, i: nat, s: nat)
    requires Uniform(data, spc) && InData(data, ch) && i < |ch| && s < spc
    ensures i * spc + s < |Secs(data, ch)| && Secs(data, ch)[i * spc + s] == data[ch[i]][s]
  {
    hide Secs;
    SecsParts(data, ch, i);
    SecsLen(data, ch[..i], spc);
  }

  function WithSec(k: Cluster, s: nat, sec: Sector): Cluster
    requires s < |k|
  {
    k[s := sec]
  }

  lemma SecsWrite(data: seq<Cluster>, ch: seq<nat>, spc: nat, i: nat, s: nat, sec: Sector)
    requires Uniform(data, spc) && InData(data, ch) && i < |ch| && s < spc &&
             forall a :: 0 <= a < |ch| && a != i ==> ch[a] != ch[i]
    ensures i * spc + s < |Secs(data, ch)|
    ensures Secs(data[ch[i] := WithSec(data[ch[i]], s, sec)], ch) == Secs(data, ch)[i * spc + s := sec]
  {
    hide Secs;
    var data' := data[ch[i] := WithSec(data[ch[i]], s, sec)];
    SecsParts(data, ch, i);
    SecsParts(data', ch, i);
    SecsLen(data, ch[..i], spc);
    SecsFrame(data, data', ch[..i]);
    SecsFrame(data, data', ch[i + 1..]);
  }

  // ----- a position in a directory -----

  datatype Cursor = Cursor(fixed: bool, c: nat, s: nat)

  predicate More(g: Geo, cur: Cursor)
  {
    if cur.fixed then cur.s < g.rootSecs else Goes(g, cur.c)
  }

  /** `d` is a directory of the volume. */
  ghost predicate IsDirRef(g: Geo, v: Vol, d: DirRef)
  {
    match d
    case Fixed => !g.fat32
    case Chain(ch) => ch != [] && IsChain(g, v.t, ch)
  }

  /** Byte `b` of slot `k` of a directory is on the disk: in sector `k / 16` of the fixed root or of the chain. */
  ghost predicate SlotOnDisk(g: Geo, disk: seq<Sector>, d: DirRef, k: nat, b: nat, x: byte)
  {
    var p := k / 16;
    var l := match d
      case Fixed => g.rootLba + p
      case Chain(ch) =>
        if g.spc > 0 && p / g.spc < |ch| then g.dataLba + (ch[p / g.spc] - 2) * g.spc + p % g.spc else -1;
    0 <= l < |disk| && k % 16 * 32 + b < 512 && disk[l][k % 16 * 32 + b] == x
  }

  lemma SlotIsOnDisk(g: Geo, disk: seq<Sector>, v: Vol, d: DirRef, k: nat, b: nat)
    requires Rep(g, disk, v) && IsDirRef(g, v, d) && k < 16 * |DirSecs(v, d)| && b < 32
    ensures SlotOnDisk(g, disk, d, k, b, Slot(DirSecs(v, d), k)[b])
  {
    var p := k / 16;
    assert Slot(DirSecs(v, d), k)[b] == DirSecs(v, d)[p][k % 16 * 32 + b];
    match d {
      case Fixed =>
        assert RootAt(g, disk, v, p);
        DataAfterRoot(g, |disk|);
      case Chain(ch) =>
        ChainInData(g, v, ch);
        SecsLen(v.data, ch, g.spc);
        QuotientBelow(p, g.spc, |ch|);
        Quotient(p, g.spc);
        SecsAt(v.data, ch, g.spc, p / g.spc, p % g.spc);
        ClusLbaFits(g, |disk|, ch[p / g.spc], p % g.spc);
        assert ClusAt(g, disk, v, ch[p / g.spc], p % g.spc);
    }
  }

  /** The number the source passes around for `d`: its first cluster, 0 for the fixed root. */
  function KeyOf(d: DirRef): nat
  {
    match d
    case Fixed => 0
    case Chain(ch) => if ch == [] then 0 else ch[0]
  }

  /** `key` means directory `d`: 0 is the root, also on FAT32. */
  predicate Names(g: Geo, key: nat, d: DirRef)
  {
    key == KeyOf(d) || (key == 0 && g.fat32 && KeyOf(d) == g.rootClus)
  }

  /** The cursor stands at sector `p` of the directory, in cluster `i` of its chain. */
  ghost predicate CurAt(g: Geo, d: DirRef, cur: Cursor, i: nat, p: nat)
  {
    match d
    case Fixed => cur.fixed && cur.s == p <= g.rootSecs
    case Chain(ch) =>
      && !cur.fixed && p == i * g.spc + cur.s && i <= |ch| && cur.s < g.spc
      && (if i < |ch| then cur.c == ch[i] else !Goes(g, cur.c) && cur.s == 0)
  }

  lemma CurFacts(g: Geo, v: Vol, d: DirRef, cur: Cursor, i: nat, p: nat)
    requires Sized(g, v) && IsDirRef(g, v, d) && CurAt(g, d, cur, i, p) && g.clusters + 2 <= g.Eof()
    ensures More(g, cur) <==> p < |DirSecs(v, d)|
    ensures p <= |DirSecs(v, d)| && (d.Chain? && !More(g, cur) ==> i == |d.ch|)
    ensures p < |DirSecs(v, d)| && d.Fixed? ==> cur.s < g.rootSecs && DirSecs(v, d)[p] == v.root[cur.s]
    ensures p < |DirSecs(v, d)| && d.Chain? ==>
              i < |d.ch| && cur.c == d.ch[i] && g.IsCluster(cur.c) && cur.c < |v.data| && cur.s < g.spc &&
                DirSecs(v, d)[p] == v.data[cur.c][cur.s]
  {
    if d.Chain? {
      ChainInData(g, v, d.ch);
      SecsLen(v.data, d.ch, g.spc);
      if i < |d.ch| { SecsAt(v.data, d.ch, g.spc, i, cur.s); }
    }
  }

  /** The volume with `sec` at the cursor. */
  function PutAt(v: Vol, cur: Cursor, sec: Sector): Vol
    requires if cur.fixed then cur.s < |v.root| else cur.c < |v.data| && cur.s < |v.data[cur.c]|
  {
    if cur.fixed then v.WithRoot(cur.s, sec) else v.WithCluster(cur.c, WithSec(v.data[cur.c], cur.s, sec))
  }

  lemma PutAtDir(g: Geo, v: Vol, d: DirRef, cur: Cursor, i: nat, p: nat, sec: Sector)
    requires Sized(g, v) && IsDirRef(g, v, d) && CurAt(g, d, cur, i, p) && g.clusters + 2 <= g.Eof() &&
             p < |DirSecs(v, d)|
    ensures if cur.fixed then cur.s < |v.root| else cur.c < |v.data| && cur.s < |v.data[cur.c]|
    ensures var v' := PutAt(v, cur, sec); Sized(g, v') && v'.t == v.t && DirSecs(v', d) == DirSecs(v, d)[p := sec]
  {
    CurFacts(g, v, d, cur, i, p);
    if d.Chain? {
      ChainInData(g, v, d.ch);
      forall a: nat | a < |d.ch| && a != i
        ensures d.ch[a] != d.ch[i]
      {
        if a < i { ChainDistinct(g, v.t, d.ch, a, i); } else { ChainDistinct(g, v.t, d.ch, i, a); }
      }
      SecsWrite(v.data, d.ch, g.spc, i, cur.s, sec);
    }
  }

  /** The two directories share no sector. */
  ghost predicate RefsApart(d: DirRef, e: DirRef)
  {
    match (d, e)
    case (Chain(a), Chain(b)) => forall i, j :: 0 <= i < |a| && 0 <= j < |b| ==> a[i] != b[j]
    case (Fixed, Fixed) => false
    case (_, _) => true
  }

  lemma PutAtOther(g: Geo, v: Vol, d: DirRef, cur: Cursor, i: nat, p: nat, sec: Sector, e: DirRef)
    requires Sized(g, v) && IsDirRef(g, v, d) && IsDirRef(g, v, e) && CurAt(g, d, cur, i, p) &&
             g.clusters + 2 <= g.Eof() && p < |DirSecs(v, d)|
    requires RefsApart(d, e)
    requires if cur.fixed then cur.s < |v.root| else cur.c < |v.data| && cur.s < |v.data[cur.c]|
    ensures DirSecs(PutAt(v, cur, sec), e) == DirSecs(v, e)
  {
    CurFacts(g, v, d, cur, i, p);
    if e.Chain? {
      ChainInData(g, v, e.ch);
      SecsFrame(v.data, PutAt(v, cur, sec).data, e.ch);
    }
  }

  // ----- the scanners -----

  method StartCursor(vol: Volume, key: nat, ghost d: DirRef) returns (cur: Cursor)
    requires vol.Valid() && IsDirRef(vol.g, vol.v, d) && Names(vol.g, key, d)
    ensures CurAt(vol.g, d, cur, 0, 0)
  {
    SpcPositive(vol);
    if d.Chain? { assert LinkAt(vol.g, vol.v.t, d.ch, 0); }
    cur := if key == 0 && !vol.g.fat32 then Cursor(true, 0, 0)
           else Cursor(false, if key == 0 then vol.g.rootClus else key, 0);
  }

  method ReadAt(vol: Volume, cur: Cursor, ghost d: DirRef, ghost i: nat, ghost p: nat) returns (sec: Sector)
    requires vol.Valid() && IsDirRef(vol.g, vol.v, d) && CurAt(vol.g, d, cur, i, p) && More(vol.g, cur)
    ensures p < |DirSecs(vol.v, d)| && sec == DirSecs(vol.v, d)[p]
  {
    hide Rep;
    SpcPositive(vol);
    SizedIs(vol.g, vol.disk[..], vol.v);
    CurFacts(vol.g, vol.v, d, cur, i, p);
    if cur.fixed {
      sec := vol.ReadRoot(cur.s);
    } else {
      sec := vol.ReadClus(cur.c, cur.s);
    }
  }

  method WriteAt(vol: Volume, cur: Cursor, sec: Sector, ghost d: DirRef, ghost i: nat, ghost p: nat)
    requires vol.Valid() && IsDirRef(vol.g, vol.v, d) && CurAt(vol.g, d, cur, i, p) && p < |DirSecs(vol.v, d)|
    modifies vol, vol.disk
    ensures if cur.fixed then cur.s < |old(vol.v).root|
            else cur.c < |old(vol.v).data| && cur.s < |old(vol.v).data[cur.c]|
    ensures vol.Valid() && vol.v == PutAt(old(vol.v), cur, sec)
  {
    hide Rep;
    SpcPositive(vol);
    SizedIs(vol.g, vol.disk[..], vol.v);
    CurFacts(vol.g, vol.v, d, cur, i, p);
    if cur.fixed {
      vol.WriteRoot(cur.s, sec);
    } else {
      vol.WriteClus(cur.c, cur.s, sec);
    }
  }

  /** The next sector of the directory; after the last of a cluster the FAT is asked for the next. */
  method Advance(vol: Volume, cur: Cursor, ghost d: DirRef, ghost i: nat, ghost p: nat)
    returns (next: Cursor, ghost i': nat)
    requires vol.Valid() && IsDirRef(vol.g, vol.v, d) && CurAt(vol.g, d, cur, i, p) && More(vol.g, cur)
    ensures CurAt(vol.g, d, next, i', p + 1)
    ensures d.Chain? ==> !cur.fixed && i' == if cur.s + 1 < vol.g.spc then i else i + 1
  {
    hide Rep, GeoOk, Holds16, Holds32;
    SpcPositive(vol);
    SizedIs(vol.g, vol.disk[..], vol.v);
    CurFacts(vol.g, vol.v, d, cur, i, p);
    i' := i;
    if cur.fixed || cur.s + 1 < vol.g.spc {
      next := cur.(s := cur.s + 1);
    } else {
      assert LinkAt(vol.g, vol.v.t, d.ch, i) && LinkAt(vol.g, vol.v.t, d.ch, i + 1);
      var c := vol.Get(cur.c);
      next := Cursor(false, c, 0);
      i' := i + 1;
      assert i' * vol.g.spc == i * vol.g.spc + vol.g.spc;
    }
  }

  function EntIn(sec: Sector, j: nat): Ent
    requires j < 16
  {
    sec[j * 32..j * 32 + 32]
  }

  /** One sector: the first entry named `n`; `ended` if an end marker comes before it and counts. */
  method ScanSector(sec: Sector, n: Name, stop: bool) returns (j: nat, ended: bool)
    ensures j <= 16 && forall a :: 0 <= a < j ==> !Matches(EntIn(sec, a), n)
    ensures j < 16 && !ended ==> Matches(EntIn(sec, j), n)
    ensures ended ==> j < 16 && IsEnd(EntIn(sec, j)) && stop
  {
    j, ended := 0, false;
    while j < 16
      invariant j <= 16 && !ended && forall a :: 0 <= a < j ==> !Matches(EntIn(sec, a), n)
    {
      var e := EntIn(sec, j);
      if stop && e[0] == 0 { return j, true; }
      if !IsFree(e) && e[11] != LFN && e[..11] == n { return j, false; }
      j := j + 1;
    }
  }

  /** find_in_dir (which stops at an end marker) and the look-up of dir_unlink_at (which does not):
      since no live entry follows an end marker, both find the live entry of that name, if any. */
  method FindEntry(vol: Volume, key: nat, n: Name, stop: bool, ghost d: DirRef)
    returns (found: bool, cur: Cursor, j: nat, ghost i: nat, ghost p: nat)
    requires vol.Valid() && IsDirRef(vol.g, vol.v, d) && Names(vol.g, key, d) && DirOk(DirSecs(vol.v, d))
    ensures found ==>
            p < |DirSecs(vol.v, d)| && CurAt(vol.g, d, cur, i, p) && j < 16 && HasEnt(DirSecs(vol.v, d), n, 16 * p + j)
    ensures !found ==> forall k: nat :: !HasEnt(DirSecs(vol.v, d), n, k)
  {
    hide Rep, DirOk, Matches;
    SpcPositive(vol);
    SizedIs(vol.g, vol.disk[..], vol.v);
    ghost var secs := DirSecs(vol.v, d);
    cur := StartCursor(vol, key, d);
    i, p, j := 0, 0, 0;
    CurFacts(vol.g, vol.v, d, cur, i, p);
    while More(vol.g, cur)
      invariant p <= |secs| && CurAt(vol.g, d, cur, i, p) && (More(vol.g, cur) <==> p < |secs|)
      invariant forall k: nat :: k < 16 * p ==> !HasEnt(secs, n, k)
      decreases |secs| - p
    {
      var sec := ReadAt(vol, cur, d, i, p);
      var ended;
      j, ended := ScanSector(sec, n, stop);
      SectorSlots(secs, p, n, j);
      if ended {
        NoneAfterEnd(secs, n, 16 * p + j);
        return false, cur, j, i, p;
      }
      if j < 16 { return true, cur, j, i, p; }
      cur, i := Advance(vol, cur, d, i, p);
      p := p + 1;
      CurFacts(vol.g, vol.v, d, cur, i, p);
    }
    found := false;
  }

  lemma SectorSlots(secs: seq<Sector>, p: nat, n: Name, j: nat)
    requires p < |secs| && j <= 16 && forall a :: 0 <= a < j ==> !Matches(EntIn(secs[p], a), n)
    requires forall k: nat :: k < 16 * p ==> !HasEnt(secs, n, k)
    ensures forall k: nat :: k < 16 * p + j ==> !HasEnt(secs, n, k)
    ensures j < 16 ==> Slot(secs, 16 * p + j) == EntIn(secs[p], j)
  {
    forall k: nat | 16 * p <= k < 16 * p + j
      ensures !HasEnt(secs, n, k)
    {
      assert Slot(secs, k) == EntIn(secs[p], k - 16 * p);
    }
  }

  lemma NoneAfterEnd(secs: seq<Sector>, n: Name, e: nat)
    requires DirOk(secs) && e < 16 * |secs| && IsEnd(Slot(secs, e)) && forall k: nat :: k < e ==> !HasEnt(secs, n, k)
    ensures forall k: nat :: !HasEnt(secs, n, k)
  {
    forall k: nat
      ensures !HasEnt(secs, n, k)
    {
      assert OrderOk(secs, e, k);
    }
  }

  // ----- finding room -----

  /** The directory `ch` of `v` got the zeroed cluster `c` at its end. */
  ghost predicate Grew(g: Geo, v: Vol, ch: seq<nat>, c: nat, v': Vol)
  {
    && g.IsCluster(c) && c < |v.t| && c < |v.data| && v.t[c] == 0 && ch != [] && ch[|ch| - 1] < |v.t|
    && v' == Vol(Linked(g, v.t, ch, c), v.data[c := Zeros(g.spc)], v.root)
  }

  lemma GrewDir(g: Geo, v: Vol, ch: seq<nat>, c: nat, v': Vol)
    requires Sized(g, v) && IsChain(g, v.t, ch) && Grew(g, v, ch, c, v') && g.clusters + 2 <= g.Eof()
    ensures Sized(g, v') && IsChain(g, v'.t, ch + [c])
    ensures Secs(v'.data, ch + [c]) == Secs(v.data, ch) + Zeros(g.spc)
  {
    ExtendChain(g, v.t, ch, c);
    ChainInData(g, v, ch);
    FreeNotIn(g, v.t, ch, c);
    SecsFrame(v.data, v'.data, ch);
    SecsCat(v'.data, ch, [c]);
    SecsOne(v'.data, c);
    hide Secs;
  }

  lemma GrewOther(g: Geo, v: Vol, ch: seq<nat>, c: nat, v': Vol, e: DirRef)
    requires Sized(g, v) && IsChain(g, v.t, ch) && Grew(g, v, ch, c, v') && IsDirRef(g, v, e) && RefsApart(Chain(ch), e)
    ensures IsDirRef(g, v', e) && DirSecs(v', e) == DirSecs(v, e) && RefsApart(Chain(ch + [c]), e)
  {
    if e.Chain? {
      FreeNotIn(g, v.t, e.ch, c);
      ChainFrame(g, v.t, e.ch, c, g.Eof());
      ChainFrame(g, v.t[c := g.Eof()], e.ch, ch[|ch| - 1], c);
      ChainInData(g, v, e.ch);
      SecsFrame(v.data, v'.data, e.ch);
    }
  }

  lemma ZeroSlots(secs: seq<Sector>, z: seq<Sector>, k: nat)
    requires k < 16 * (|secs| + |z|) && forall i :: 0 <= i < |z| ==> z[i] == ZeroSector()
    ensures Slot(secs + z, k) == if k < 16 * |secs| then Slot(secs, k) else seq(32, _ => 0)
  {
  }

  /** The slots before `k` are taken. */
  ghost predicate Taken(secs: seq<Sector>, k: nat)
  {
    k <= 16 * |secs| && forall a: nat :: a < k ==> !IsFree(Slot(secs, a))
  }

  method ScanFree(sec: Sector) returns (j: nat)
    ensures j <= 16 && forall a :: 0 <= a < j ==> !IsFree(EntIn(sec, a))
    ensures j < 16 ==> IsFree(EntIn(sec, j))
  {
    j := 0;
    while j < 16
      invariant j <= 16 && forall a :: 0 <= a < j ==> !IsFree(EntIn(sec, a))
    {
      var e := EntIn(sec, j);
      if e[0] == 0 || e[0] == DELETED { return; }
      j := j + 1;
    }
  }

  lemma TakenMore(secs: seq<Sector>, p: nat, j: nat)
    requires Taken(secs, 16 * p) && p < |secs| && j <= 16 && forall a :: 0 <= a < j ==> !IsFree(EntIn(secs[p], a))
    ensures Taken(secs, 16 * p + j) && (j < 16 ==> Slot(secs, 16 * p + j) == EntIn(secs[p], j))
  {
    forall a: nat | 16 * p <= a < 16 * p + j
      ensures !IsFree(Slot(secs, a))
    {
      assert Slot(secs, a) == EntIn(secs[p], a - 16 * p);
    }
  }

  /** The first free slot among those there are. */
  method FindFree(vol: Volume, key: nat, ghost d: DirRef)
    returns (found: bool, cur: Cursor, j: nat, prev: nat, ghost i: nat, ghost p: nat)
    requires vol.Valid() && IsDirRef(vol.g, vol.v, d) && Names(vol.g, key, d)
    ensures found ==> p < |DirSecs(vol.v, d)| && CurAt(vol.g, d, cur, i, p) && j < 16
                      && Taken(DirSecs(vol.v, d), 16 * p + j) && IsFree(Slot(DirSecs(vol.v, d), 16 * p + j))
    ensures !found ==> Taken(DirSecs(vol.v, d), 16 * |DirSecs(vol.v, d)|) && (d.Chain? ==> prev == d.ch[|d.ch| - 1])
  {
    hide Rep, Taken, IsFree, CurAt, DirSecs, More;
    SpcPositive(vol);
    SizedIs(vol.g, vol.disk[..], vol.v);
    ghost var secs := DirSecs(vol.v, d);
    cur := StartCursor(vol, key, d);
    i, p, j, prev := 0, 0, 0, 0;
    NoneTaken(secs);
    CurFacts(vol.g, vol.v, d, cur, i, p);
    while More(vol.g, cur)
      invariant p <= |secs| && CurAt(vol.g, d, cur, i, p) && (More(vol.g, cur) <==> p < |secs|) && Taken(secs, 16 * p)
      invariant d.Chain? && i > 0 ==> i <= |d.ch| && prev == d.ch[i - 1]
      decreases |secs| - p
    {
      var sec := ReadAt(vol, cur, d, i, p);
      j := ScanFree(sec);
      TakenMore(secs, p, j);
      if j < 16 { return true, cur, j, prev, i, p; }
      CurFacts(vol.g, vol.v, d, cur, i, p);
      if !cur.fixed && cur.s + 1 >= vol.g.spc { prev := cur.c; }
      cur, i := Advance(vol, cur, d, i, p);
      p := p + 1;
      CurFacts(vol.g, vol.v, d, cur, i, p);
    }
    CurFacts(vol.g, vol.v, d, cur, i, p);
    found := false;
  }

  lemma NoneTaken(secs: seq<Sector>)
    ensures Taken(secs, 0)
  {
  }
}
