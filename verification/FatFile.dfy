/** Reading and writing a file through its cluster chain (kernel/fs/fat.c). */
module FatFile {
  import opened Tiny
  import opened FatDisk
  import opened FatChain

  // ----- a file's bytes -----

  function ClusBytes(k: Cluster): seq<byte>
  {
    if k == [] then [] else k[0] + ClusBytes(k[1..])
  }

  lemma {:induction false} ClusLen(k: Cluster)
    ensures |ClusBytes(k)| == 512 * |k|
  {
    if k != [] { ClusLen(k[1..]); }
  }

  lemma {:induction false} ClusAppend(k: Cluster, s: Sector)
    ensures ClusBytes(k + [s]) == ClusBytes(k) + s
  {
    if k == [] {
      assert [s][1..] == [];
    } else {
      ClusAppend(k[1..], s);
      assert (k + [s])[1..] == k[1..] + [s];
    }
  }

  ghost predicate InData(data: seq<Cluster>, ch: seq<nat>)
  {
    forall i :: 0 <= i < |ch| ==> ch[i] < |data|
  }

  /** The clusters of a chain one after another. */
  function Flat(data: seq<Cluster>, ch: seq<nat>): seq<byte>
  {
    if ch == [] || ch[0] >= |data| then [] else ClusBytes(data[ch[0]]) + Flat(data, ch[1..])
  }

  ghost predicate Uniform(data: seq<Cluster>, spc: nat)
  {
    forall c :: 0 <= c < |data| ==> |data[c]| == spc
  }

  lemma {:induction false} FlatLen(data: seq<Cluster>, ch: seq<nat>, spc: nat)
    requires Uniform(data, spc) && InData(data, ch)
    ensures |Flat(data, ch)| == |ch| * (spc * 512)
  {
    if ch != [] {
      ClusLen(data[ch[0]]);
      FlatLen(data, ch[1..], spc);
      assert |ch| * (spc * 512) == (|ch| - 1) * (spc * 512) + spc * 512;
    }
  }

  lemma {:induction false} FlatCat(data: seq<Cluster>, a: seq<nat>, b: seq<nat>)
    requires InData(data, a) && InData(data, b)
    ensures Flat(data, a + b) == Flat(data, a) + Flat(data, b)
  {
    if a == [] {
      assert a + b == b;
    } else {
      FlatCat(data, a[1..], b);
      assert (a + b)[1..] == a[1..] + b;
    }
  }

  lemma FlatOne(data: seq<Cluster>, c: nat)
    requires c < |data|
    ensures Flat(data, [c]) == ClusBytes(data[c])
  {
    assert [c][1..] == [];
  }

  lemma FlatParts(data: seq<Cluster>, ch: seq<nat>, i: nat)
    requires InData(data, ch) && i < |ch|
    ensures Flat(data, ch) == Flat(data, ch[..i]) + ClusBytes(data[ch[i]]) + Flat(data, ch[i + 1..])
  {
    var a, b := ch[..i], ch[i + 1..];
    assert ch == a + ([ch[i]] + b);
    FlatCat(data, a, [ch[i]] + b);
    FlatCat(data, [ch[i]], b);
    FlatOne(data, ch[i]);
    hide Flat, ClusBytes;
  }

  /** The stretch of cluster `i`. */
  lemma FlatAt(data: seq<Cluster>, ch: seq<nat>, spc: nat, i: nat)
    requires Uniform(data, spc) && InData(data, ch) && i < |ch|
    ensures |ClusBytes(data[ch[i]])| == spc * 512 && i * (spc * 512) + spc * 512 <= |Flat(data, ch)|
    ensures Flat(data, ch)[i * (spc * 512)..i * (spc * 512) + spc * 512] == ClusBytes(data[ch[i]])
  {
    hide Flat, ClusBytes;
    FlatParts(data, ch, i);
    FlatLen(data, ch[..i], spc);
    ClusLen(data[ch[i]]);
  }

  /** A chain's bytes depend on its own clusters only. */
  lemma {:induction false} FlatFrame(data: seq<Cluster>, data': seq<Cluster>, ch: seq<nat>)
    requires |data'| == |data| && InData(data, ch) && forall i :: 0 <= i < |ch| ==> data'[ch[i]] == data[ch[i]]
    ensures Flat(data', ch) == Flat(data, ch)
  {
    if ch != [] { FlatFrame(data, data', ch[1..]); }
  }

  /** Rewriting cluster `i` of a chain replaces its stretch of the bytes. */
  lemma FlatWrite(data: seq<Cluster>, ch: seq<nat>, spc: nat, i: nat, k: Cluster)
    requires Uniform(data, spc) && InData(data, ch) && i < |ch| && |k| == spc
    requires forall a :: 0 <= a < |ch| && a != i ==> ch[a] != ch[i]
    ensures var p := i * (spc * 512); var f := Flat(data, ch);
            p + spc * 512 <= |f| && Flat(data[ch[i] := k], ch) == f[..p] + ClusBytes(k) + f[p + spc * 512..]
  {
    hide Flat, ClusBytes;
    var data' := data[ch[i] := k];
    FlatParts(data, ch, i);
    FlatParts(data', ch, i);
    FlatLen(data, ch[..i], spc);
    ClusLen(data[ch[i]]);
    FlatFrame(data, data', ch[..i]);
    FlatFrame(data, data', ch[i + 1..]);
  }

  // ----- where they are on the disk -----

  /** Byte `p` of the file with chain `ch` is on the disk, and is `b`. */
  ghost predicate OnDisk(g: Geo, d: seq<Sector>, ch: seq<nat>, p: nat, b: byte)
  {
    && g.spc > 0 && p / (512 * g.spc) < |ch|
    && var l := g.dataLba + (ch[p / (512 * g.spc)] - 2) * g.spc + p % (512 * g.spc) / 512;
       0 <= l < |d| && d[l][p % 512] == b
  }

  lemma {:induction false} ClusByte(k: Cluster, i: nat)
    requires i < 512 * |k|
    ensures |ClusBytes(k)| == 512 * |k| && ClusBytes(k)[i] == k[i / 512][i % 512]
  {
    ClusLen(k);
    if i >= 512 {
      ClusByte(k[1..], i - 512);
      assert (i - 512) / 512 == i / 512 - 1 && (i - 512) % 512 == i % 512;
    }
  }

  lemma Within(p: nat, spc: nat)
    requires spc > 0
    ensures p % (512 * spc) % 512 == p % 512 && p % (512 * spc) / 512 < spc
  {
    var size := 512 * spc;
    var q, r := p / size, p % size;
    Quotient(p, size);
    Regroup(q, spc);
    Shifted(r, q * spc);
    SmallRow(r, spc);
  }

  lemma Regroup(q: nat, spc: nat)
    ensures q * (512 * spc) == 512 * (q * spc)
  {
  }

  lemma Shifted(r: nat, m: nat)
    ensures (512 * m + r) % 512 == r % 512
  {
  }

  lemma SmallRow(r: nat, spc: nat)
    requires r < 512 * spc
    ensures r / 512 < spc
  {
  }

  /** The bytes of a file are the bytes of its clusters' sectors. */
  lemma FileOnDisk(g: Geo, d: seq<Sector>, v: Vol, ch: seq<nat>, p: nat)
    requires Rep(g, d, v) && IsChain(g, v.t, ch) && p < |Flat(v.data, ch)|
    ensures OnDisk(g, d, ch, p, Flat(v.data, ch)[p])
  {
    hide Flat, ClusBytes;
    ChainInData(g, v, ch);
    FlatLen(v.data, ch, g.spc);
    var size := 512 * g.spc;
    var i, r := p / size, p % size;
    QuotientBelow(p, size, |ch|);
    Quotient(p, size);
    FlatAt(v.data, ch, g.spc, i);
    assert Flat(v.data, ch)[p] == ClusBytes(v.data[ch[i]])[r];
    ClusByte(v.data[ch[i]], r);
    Within(p, g.spc);
    ClusLbaFits(g, |d|, ch[i], r / 512);
    assert ClusAt(g, d, v, ch[i], r / 512);
  }

  // ----- overwriting a stretch -----

  /** `f` is `f0`, perhaps longer, with the first `n` bytes of `buf` at `pos`. */
  ghost predicate Spliced(f0: seq<byte>, f: seq<byte>, pos: nat, buf: seq<byte>, n: nat)
  {
    && |f0| <= |f| && pos <= |f0| && n <= |buf| && (n > 0 ==> pos + n <= |f|)
    && forall k :: 0 <= k < |f| ==> if pos <= k < pos + n then f[k] == buf[k - pos] else k < |f0| ==> f[k] == f0[k]
  }

  /** What a write of `buf` at `pos` makes of a file. */
  function Written(old_: seq<byte>, pos: nat, buf: seq<byte>): (r: seq<byte>)
    requires pos <= |old_|
    ensures |r| == if pos + |buf| > |old_| then pos + |buf| else |old_|
  {
    old_[..pos] + buf + (if pos + |buf| <= |old_| then old_[pos + |buf|..] else [])
  }

  lemma SpliceMore(f0: seq<byte>, f: seq<byte>, pos: nat, buf: seq<byte>, n: nat, q: nat, w: nat, off: nat, m: nat)
    requires Spliced(f0, f, pos, buf, n) && q + w <= |f| && off + m <= w && q + off == pos + n && n + m <= |buf|
    ensures var nb := f[q..q + w][..off] + buf[n..n + m] + f[q..q + w][off + m..];
            Spliced(f0, f[..q] + nb + f[q + w..], pos, buf, n + m)
  {
    var nb := f[q..q + w][..off] + buf[n..n + m] + f[q..q + w][off + m..];
    var f' := f[..q] + nb + f[q + w..];
    assert f' == f[..q + off] + buf[n..n + m] + f[q + off + m..];
    var e := pos + n;
    forall k | 0 <= k < |f|
      ensures f'[k] == if e <= k < e + m then buf[k - pos] else f[k]
    {
    }
  }

  lemma SpliceLonger(f0: seq<byte>, f: seq<byte>, pos: nat, buf: seq<byte>, n: nat, z: seq<byte>)
    requires Spliced(f0, f, pos, buf, n)
    ensures Spliced(f0, f + z, pos, buf, n)
  {
  }

  /** All of `buf` is in place: the file reads as it should. */
  lemma SpliceDone(f0: seq<byte>, f: seq<byte>, pos: nat, buf: seq<byte>, size: nat)
    requires Spliced(f0, f, pos, buf, |buf|) && pos <= size <= |f0| && |buf| > 0
    ensures var n := if pos + |buf| > size then pos + |buf| else size;
            n <= |f| && f[..n] == Written(f0[..size], pos, buf)
  {
  }

  // ----- a file being written -----

  /** From `v0` with chains `cs0` to `v` with chains `cs` only file `k` changed: its chain may have
      grown, and `n` bytes of `buf` are written at `pos`. */
  ghost predicate Writing(g: Geo, v0: Vol, cs0: seq<seq<nat>>, v: Vol, cs: seq<seq<nat>>, k: nat, pos: nat,
      buf: seq<byte>, n: nat)
  {
    && Sized(g, v) && Sized(g, v0) && v.root == v0.root && ChainsOk(g, v.t, cs)
    && |cs| == |cs0| && k < |cs| && cs0[k] <= cs[k] && (forall j :: 0 <= j < |cs| && j != k ==> cs[j] == cs0[j])
    && (forall j: nat, a: nat {:trigger cs[j][a]} :: j < |cs| && j != k && a < |cs[j]| && cs[j][a] < |v.data| ==>
          v.data[cs[j][a]] == v0.data[cs[j][a]])
    && Spliced(Flat(v0.data, cs0[k]), Flat(v.data, cs[k]), pos, buf, n)
    && FreeClus(v.t) + |cs[k]| == FreeClus(v0.t) + |cs0[k]|
  }

  lemma ChainInData(g: Geo, v: Vol, ch: seq<nat>)
    requires Sized(g, v) && IsChain(g, v.t, ch)
    ensures InData(v.data, ch) && Uniform(v.data, g.spc) && forall i :: 0 <= i < |ch| ==> g.IsCluster(ch[i])
  {
    forall i: nat | i < |ch|
      ensures ch[i] < |v.data| && g.IsCluster(ch[i])
    {
      assert LinkAt(g, v.t, ch, i);
    }
  }

  lemma WritingStart(g: Geo, v: Vol, cs: seq<seq<nat>>, k: nat, pos: nat, buf: seq<byte>)
    requires Sized(g, v) && ChainsOk(g, v.t, cs) && k < |cs| && pos <= |Flat(v.data, cs[k])|
    ensures Writing(g, v, cs, v, cs, k, pos, buf, 0)
  {
  }

  /** A fresh cluster at the end of the chain. */
  lemma WritingMore(g: Geo, v0: Vol, cs0: seq<seq<nat>>, v: Vol, cs: seq<seq<nat>>, k: nat, pos: nat, buf: seq<byte>,
      n: nat, c: nat, v1: Vol)
    requires Writing(g, v0, cs0, v, cs, k, pos, buf, n) && NewCluster(g, v, c, v1) && g.clusters + 2 <= g.Eof()
    ensures cs[k] != [] ==> cs[k][|cs[k]| - 1] < |v1.t|
    ensures var v2 := if cs[k] == [] then v1 else v1.WithFat(cs[k][|cs[k]| - 1], c);
            Writing(g, v0, cs0, v2, cs[k := cs[k] + [c]], k, pos, buf, n)
  {
    hide Flat, Spliced;
    var ch := cs[k];
    assert IsChain(g, v.t, ch);
    ExtendOk(g, v.t, cs, k, c);
    LinkFree(g, v.t, ch, c);
    hide FreeClus;
    var v2 := if ch == [] then v1 else v1.WithFat(ch[|ch| - 1], c);
    var cs2 := cs[k := ch + [c]];
    assert v2.t == Linked(g, v.t, ch, c);
    ChainInData(g, v, ch);
    FreeNotIn(g, v.t, ch, c);
    FlatFrame(v.data, v2.data, ch);
    FlatCat(v2.data, ch, [c]);
    SpliceLonger(Flat(v0.data, cs0[k]), Flat(v.data, ch), pos, buf, n, Flat(v2.data, [c]));
    forall j: nat, a: nat | j < |cs2| && j != k && a < |cs2[j]| && cs2[j][a] < |v2.data|
      ensures v2.data[cs2[j][a]] == v0.data[cs2[j][a]]
    {
      assert cs2[j] == cs[j] && IsChain(g, v.t, cs[j]);
      FreeNotIn(g, v.t, cs[j], c);
    }
    hide ChainsOk;
  }

  /** The next `m` bytes of `buf` written at byte `off` of cluster `i`. */
  lemma WritingChunk(g: Geo, v0: Vol, cs0: seq<seq<nat>>, v: Vol, cs: seq<seq<nat>>, k: nat, pos: nat, buf: seq<byte>,
      n: nat,
                     i: nat, off: nat, m: nat, kk: Cluster)
    requires Writing(g, v0, cs0, v, cs, k, pos, buf, n) && i < |cs[k]| && i * g.ClusSize() + off == pos + n &&
             |kk| == g.spc
    requires off + m <= g.ClusSize() && n + m <= |buf| && cs[k][i] < |v.data| &&
             |ClusBytes(v.data[cs[k][i]])| == g.ClusSize()
    requires var cb := ClusBytes(v.data[cs[k][i]]); ClusBytes(kk) == cb[..off] + buf[n..n + m] + cb[off + m..]
    ensures Writing(g, v0, cs0, v.WithCluster(cs[k][i], kk), cs, k, pos, buf, n + m)
  {
    hide Flat, Spliced, ClusBytes;
    var ch, v' := cs[k], v.WithCluster(cs[k][i], kk);
    assert IsChain(g, v.t, ch);
    ChainInData(g, v, ch);
    forall a: nat | a < |ch| && a != i
      ensures ch[a] != ch[i]
    {
      assert Apart(cs, k, a, k, i);
    }
    ChunkFlat(v.data, ch, g.spc, i, kk, Flat(v0.data, cs0[k]), pos, buf, n, off, m);
    forall j: nat, a: nat | j < |cs| && j != k && a < |cs[j]| && cs[j][a] < |v'.data|
      ensures v'.data[cs[j][a]] == v0.data[cs[j][a]]
    {
      assert Apart(cs, j, a, k, i);
    }
    hide ChainsOk;
  }

  lemma ChunkFlat(data: seq<Cluster>, ch: seq<nat>, spc: nat, i: nat, kk: Cluster, f0: seq<byte>, pos: nat,
      buf: seq<byte>, n: nat, off: nat, m: nat)
    requires Uniform(data, spc) && InData(data, ch) && i < |ch| && |kk| == spc &&
             forall a :: 0 <= a < |ch| && a != i ==> ch[a] != ch[i]
    requires Spliced(f0, Flat(data, ch), pos, buf, n) && i * (spc * 512) + off == pos + n && off + m <= spc * 512 &&
             n + m <= |buf|
    requires |ClusBytes(data[ch[i]])| == spc * 512
    requires var cb := ClusBytes(data[ch[i]]); ClusBytes(kk) == cb[..off] + buf[n..n + m] + cb[off + m..]
    ensures Spliced(f0, Flat(data[ch[i] := kk], ch), pos, buf, n + m)
  {
    hide Flat, Spliced, ClusBytes;
    FlatWrite(data, ch, spc, i, kk);
    FlatAt(data, ch, spc, i);
    SpliceMore(f0, Flat(data, ch), pos, buf, n, i * (spc * 512), spc * 512, off, m);
  }

  // ----- the methods -----

  /** An open file (struct fat_file). */
  class Handle {
    const name: seq<byte>
    var start: nat
    var size: nat
    var pos: nat

    /** fat_open, once the entry is found. */
    constructor (name: seq<byte>, start: nat, size: nat)
      ensures this.name == name && this.start == start && this.size == size && pos == 0
    {
      this.name, this.start, this.size, pos := name, start, size, 0;
    }

    /** The handle is of the file with chain `ch`. */
    ghost predicate Of(v: Vol, g: Geo, ch: seq<nat>)
      reads this
    {
      && IsChain(g, v.t, ch) && (if ch == [] then start < 2 else start == ch[0])
      && size <= |Flat(v.data, ch)|
    }
  }

  /** read_sectors of a whole cluster. */
  method ReadCluster(vol: Volume, c: nat) returns (buf: seq<byte>)
    requires vol.Valid() && vol.g.IsCluster(c)
    ensures c < |vol.v.data| && buf == ClusBytes(vol.v.data[c]) && |buf| == vol.g.ClusSize()
  {
    hide Rep;
    SizedIs(vol.g, vol.disk[..], vol.v);
    buf := [];
    var s := 0;
    while s < vol.g.spc
      invariant s <= vol.g.spc && buf == ClusBytes(vol.v.data[c][..s])
    {
      var sec := vol.ReadClus(c, s);
      ClusAppend(vol.v.data[c][..s], sec);
      assert vol.v.data[c][..s + 1] == vol.v.data[c][..s] + [sec];
      buf := buf + sec;
      s := s + 1;
    }
    assert vol.v.data[c][..s] == vol.v.data[c];
    ClusLen(vol.v.data[c]);
  }

  /** write_sectors of a whole cluster. */
  method WriteCluster(vol: Volume, c: nat, buf: seq<byte>) returns (ghost kk: Cluster)
    requires vol.Valid() && vol.g.IsCluster(c) && |buf| == vol.g.ClusSize()
    modifies vol, vol.disk
    ensures vol.Valid() && |kk| == vol.g.spc && ClusBytes(kk) == buf
    ensures c < |old(vol.v).data| && vol.v == old(vol.v).WithCluster(c, kk)
  {
    hide Rep;
    SizedIs(vol.g, vol.disk[..], vol.v);
    kk := [];
    var s := 0;
    while s < vol.g.spc
      invariant s <= vol.g.spc && vol.Valid() && |vol.v.data| == |old(vol.v).data| && |vol.v.data[c]| == vol.g.spc
      invariant vol.v == old(vol.v).WithCluster(c, vol.v.data[c]) && vol.v.data[c][..s] == kk
      invariant |kk| == s && ClusBytes(kk) == buf[..s * 512]
    {
      var sec: Sector := buf[s * 512..s * 512 + 512];
      vol.WriteClus(c, s, sec);
      ClusAppend(kk, sec);
      assert buf[..s * 512] + sec == buf[..(s + 1) * 512];
      kk := kk + [sec];
      s := s + 1;
    }
    assert vol.v.data[c] == kk && buf[..s * 512] == buf;
  }

  lemma Quotient(pos: nat, size: nat)
    requires size > 0
    ensures pos == pos / size * size + pos % size && 0 <= pos % size < size && pos / size >= 0
  {
  }

  lemma QuotientBelow(pos: nat, size: nat, n: nat)
    requires size > 0 && pos < n * size
    ensures pos / size < n
  {
    Quotient(pos, size);
    if pos / size >= n {
      if pos / size > n { RowAfter(n, pos / size, size); }
      assert false;
    }
  }

  // ----- reading -----

  /** The walk of fat_read_file to the cluster that holds byte `pos`. */
  method Seek(vol: Volume, start: nat, pos: nat, ghost ch: seq<nat>) returns (ok: bool, c: nat, ghost i: nat)
    requires vol.Valid() && IsChain(vol.g, vol.v.t, ch) && ch != [] && start == ch[0] && vol.g.ClusSize() > 0
    ensures i == pos / vol.g.ClusSize()
    ensures ok <==> i < |ch|
    ensures ok ==> c == ch[i]
  {
    hide Rep;
    var skip := pos / vol.g.ClusSize();
    i := skip;
    c := start;
    SizedIs(vol.g, vol.disk[..], vol.v);
    ghost var j := 0;
    while skip > 0
      invariant 0 <= skip <= i && j == i - skip < |ch| && c == ch[j]
    {
      assert LinkAt(vol.g, vol.v.t, ch, j) && LinkAt(vol.g, vol.v.t, ch, j + 1);
      c := vol.Get(c);
      if vol.g.IsEof(c) || c < 2 { return false, c, i; }
      skip := skip - 1;
      j := j + 1;
    }
    ok := true;
  }

  /** fat_read_file: the next `len` bytes of the file, or what there is of them. */
  method ReadFile(vol: Volume, h: Handle, len: nat, ghost ch: seq<nat>) returns (ok: bool, out: seq<byte>)
    requires vol.Valid() && h.Of(vol.v, vol.g, ch)
    modifies h
    ensures ok && h.pos == old(h.pos) + |out| && h.start == old(h.start) && h.size == old(h.size) &&
            h.Of(vol.v, vol.g, ch)
    ensures var f := Flat(vol.v.data, ch)[..h.size];
            out == if old(h.pos) >= |f| then []
              else f[old(h.pos)..if old(h.pos) + len < |f| then old(h.pos) + len else |f|]
    ensures |out| == if old(h.pos) >= h.size then 0 else if len < h.size - old(h.pos) then len else h.size - old(h.pos)
    ensures forall i :: 0 <= i < |out| ==> OnDisk(vol.g, vol.disk[..], ch, old(h.pos) + i, out[i])
  {
    if h.pos >= h.size { return true, []; }
    hide Rep, Flat, OnDisk;
    var want := if len > h.size - h.pos then h.size - h.pos else len;
    Quotient(h.pos, vol.g.ClusSize()) by { SpcPositive(vol); }
    ReadBound(vol, ch, h.pos, h.size);
    var c;
    ghost var i;
    ok, c, i := Seek(vol, h.start, h.pos, ch);
    var off := h.pos % vol.g.ClusSize();
    out := ReadFrom(vol, c, off, want, i, h.pos, ch);
    Prefix(Flat(vol.v.data, ch), h.size, h.pos, want);
    forall i | 0 <= i < |out|
      ensures OnDisk(vol.g, vol.disk[..], ch, h.pos + i, out[i])
    {
      FileOnDisk(vol.g, vol.disk[..], vol.v, ch, h.pos + i);
    }
    h.pos := h.pos + |out|;
  }

  lemma Prefix(f: seq<byte>, n: nat, p: nat, m: nat)
    requires p + m <= n <= |f|
    ensures f[..n][p..p + m] == f[p..p + m]
  {
    SubSlice(f, 0, n, p, m);
  }

  lemma SpcPositive(vol: Volume)
    requires vol.Valid()
    ensures vol.g.ClusSize() > 0 && vol.g.clusters + 2 <= vol.g.Eof()
  {
  }

  lemma ReadBound(vol: Volume, ch: seq<nat>, pos: nat, size: nat)
    requires vol.Valid() && IsChain(vol.g, vol.v.t, ch) && pos < size <= |Flat(vol.v.data, ch)|
    ensures ch != [] && vol.g.ClusSize() > 0 && pos / vol.g.ClusSize() < |ch|
  {
    ChainInData(vol.g, vol.v, ch);
    FlatLen(vol.v.data, ch, vol.g.spc);
    QuotientBelow(pos, vol.g.ClusSize(), |ch|);
  }

  /** The copying loop of fat_read_file, from byte `off` of cluster `i` of the chain. */
  method ReadFrom(vol: Volume, first: nat, first_off: nat, want: nat, ghost first_i: nat, ghost pos: nat,
      ghost ch: seq<nat>)
    returns (out: seq<byte>)
    requires vol.Valid() && IsChain(vol.g, vol.v.t, ch) && first_i < |ch| && first == ch[first_i]
    requires pos == first_i * vol.g.ClusSize() + first_off && first_off < vol.g.ClusSize() &&
             pos + want <= |Flat(vol.v.data, ch)|
    ensures out == Flat(vol.v.data, ch)[pos..pos + want]
  {
    hide Rep, Flat, ClusBytes;
    ghost var f := Flat(vol.v.data, ch);
    var size := vol.g.ClusSize();
    SizedIs(vol.g, vol.disk[..], vol.v);
    ChainInData(vol.g, vol.v, ch);
    FlatLen(vol.v.data, ch, vol.g.spc);
    var c, off, remain := first, first_off, want;
    ghost var i := first_i;
    out := [];
    while remain > 0
      invariant 0 <= remain <= want && |out| == want - remain && out == f[pos..pos + |out|]
      invariant remain > 0 ==> 0 <= i < |ch| && c == ch[i] && 0 <= off < size && pos + |out| == i * size + off
      decreases remain
    {
      assert LinkAt(vol.g, vol.v.t, ch, i);
      var buf := ReadCluster(vol, c);
      var chunk := if size - off > remain then remain else size - off;
      ChunkIs(vol.v.data, ch, vol.g.spc, i, off, chunk);
      Slices(f, pos, |out|, chunk);
      out := out + buf[off..off + chunk];
      remain := remain - chunk;
      off := 0;
      if remain > 0 {
        NextFits(i, size, |ch|, pos + |out|);
        assert LinkAt(vol.g, vol.v.t, ch, i + 1);
        c := vol.Get(c);
        i := i + 1;
        if vol.g.IsEof(c) || c < 2 { assert false; break; }
      }
    }
  }

  lemma ChunkIs(data: seq<Cluster>, ch: seq<nat>, spc: nat, i: nat, off: nat, m: nat)
    requires Uniform(data, spc) && InData(data, ch) && i < |ch| && off + m <= spc * 512
    ensures i * (spc * 512) + off + m <= |Flat(data, ch)| && off + m <= |ClusBytes(data[ch[i]])|
    ensures Flat(data, ch)[i * (spc * 512) + off..i * (spc * 512) + off + m] == ClusBytes(data[ch[i]])[off..off + m]
  {
    hide Flat, ClusBytes;
    FlatAt(data, ch, spc, i);
    SubSlice(Flat(data, ch), i * (spc * 512), spc * 512, off, m);
  }

  lemma SubSlice(f: seq<byte>, q: nat, w: nat, off: nat, m: nat)
    requires q + w <= |f| && off + m <= w
    ensures f[q + off..q + off + m] == f[q..q + w][off..off + m]
  {
    var r := f[q..q + w];
    var a, b := r[off..off + m], f[q + off..q + off + m];
    forall k | 0 <= k < m
      ensures a[k] == b[k]
    {
      assert r[off + k] == f[q + off + k];
    }
  }

  lemma Slices(f: seq<byte>, p: nat, n: nat, m: nat)
    requires p + n + m <= |f|
    ensures f[p..p + n] + f[p + n..p + n + m] == f[p..p + n + m]
  {
  }

  lemma NextFits(i: nat, size: nat, n: nat, p: nat)
    requires p == i * size + size && p < n * size
    ensures i + 1 < n && p == (i + 1) * size
  {
    assert p == (i + 1) * size;
    if i + 1 > n { RowAfter(n, i + 1, size); }
  }

  // ----- writing -----

  lemma WritingFacts(g: Geo, v0: Vol, cs0: seq<seq<nat>>, v: Vol, cs: seq<seq<nat>>, k: nat, pos: nat, buf: seq<byte>,
      n: nat, i: nat)
    requires Writing(g, v0, cs0, v, cs, k, pos, buf, n)
    ensures k < |cs| && IsChain(g, v.t, cs[k]) && Sized(g, v) && LinkAt(g, v.t, cs[k], i) &&
            LinkAt(g, v.t, cs[k], i + 1)
    ensures InData(v.data, cs[k]) && Uniform(v.data, g.spc)
  {
    assert IsChain(g, v.t, cs[k]);
    ChainInData(g, v, cs[k]);
  }

  /** The cluster after `c`, a fresh one if `c` is the last; it fails when none is free. */
  method NextOrGrow(vol: Volume, c: nat, ghost i: nat, ghost v0: Vol, ghost cs0: seq<seq<nat>>,
      ghost cs: seq<seq<nat>>, ghost k: nat,
                    ghost pos: nat, ghost buf: seq<byte>, ghost n: nat)
    returns (ok: bool, e: nat, ghost cs': seq<seq<nat>>)
    requires vol.Valid() && Writing(vol.g, v0, cs0, vol.v, cs, k, pos, buf, n) && i < |cs[k]| && c == cs[k][i]
    modifies vol, vol.disk
    ensures vol.Valid() && Writing(vol.g, v0, cs0, vol.v, cs', k, pos, buf, n)
    ensures ok ==> i + 1 < |cs'[k]| && e == cs'[k][i + 1] && cs[k] <= cs'[k]
    ensures ok ==> |cs'[k]| == |cs[k]| || |cs'[k]| == i + 2
    ensures !ok ==> vol.v == old(vol.v) && cs' == cs && NoneFree(vol.g, vol.v) && |cs[k]| == i + 1
  {
    hide Rep, Writing, NoneFree;
    SpcPositive(vol);
    WritingFacts(vol.g, v0, cs0, vol.v, cs, k, pos, buf, n, i);
    ok, cs' := true, cs;
    e := vol.Get(c);
    if vol.g.IsEof(e) || e < 2 {
      ghost var v1 := vol.v;
      e := AllocCluster(vol);
      if e == 0 { return false, e, cs; }
      WritingMore(vol.g, v0, cs0, v1, cs, k, pos, buf, n, e, vol.v);
      vol.Put(c, e);
      cs' := cs[k := cs[k] + [e]];
    }
  }

  /** The walk of fat_write_file to the cluster that holds byte `pos`. */
  method SeekGrow(vol: Volume, start: nat, pos: nat, buf: seq<byte>, ghost v0: Vol, ghost cs0: seq<seq<nat>>,
      ghost cs: seq<seq<nat>>, ghost k: nat)
    returns (ok: bool, c: nat, ghost i: nat, ghost cs': seq<seq<nat>>)
    requires vol.Valid() && Writing(vol.g, v0, cs0, vol.v, cs, k, pos, buf, 0) && cs[k] != [] && start == cs[k][0]
    modifies vol, vol.disk
    ensures vol.Valid() && Writing(vol.g, v0, cs0, vol.v, cs', k, pos, buf, 0) && cs[k] <= cs'[k]
    ensures vol.g.ClusSize() > 0 && i == pos / vol.g.ClusSize()
    ensures ok ==> i < |cs'[k]| && c == cs'[k][i] && (|cs'[k]| == |cs[k]| || |cs'[k]| == i + 1)
    ensures !ok ==> NoneFree(vol.g, vol.v) && |cs'[k]| <= i
  {
    hide Rep, Writing, NoneFree;
    SpcPositive(vol);
    var skip := pos / vol.g.ClusSize();
    i := skip;
    c, cs', ok := start, cs, true;
    WritingFacts(vol.g, v0, cs0, vol.v, cs, k, pos, buf, 0, 0);
    ghost var j := 0;
    while skip > 0
      invariant vol.Valid() && Writing(vol.g, v0, cs0, vol.v, cs', k, pos, buf, 0) && k < |cs'| && cs[k] <= cs'[k]
      invariant 0 <= skip <= i && j == i - skip < |cs'[k]| && c == cs'[k][j]
      invariant |cs'[k]| == |cs[k]| || |cs'[k]| == j + 1
    {
      ok, c, cs' := NextOrGrow(vol, c, j, v0, cs0, cs', k, pos, buf, 0);
      WritingFacts(vol.g, v0, cs0, vol.v, cs', k, pos, buf, 0, 0);
      if !ok { return; }
      skip := skip - 1;
      j := j + 1;
    }
  }

  /** One round of the copying loop of fat_write_file. */
  method WriteChunk(vol: Volume, c: nat, off: nat, m: nat, buf: seq<byte>, n: nat, ghost i: nat, ghost v0: Vol,
      ghost cs0: seq<seq<nat>>,
                    ghost cs: seq<seq<nat>>, ghost k: nat, ghost pos: nat)
    requires vol.Valid() && Writing(vol.g, v0, cs0, vol.v, cs, k, pos, buf, n) && i < |cs[k]| && c == cs[k][i]
    requires i * vol.g.ClusSize() + off == pos + n && off + m <= vol.g.ClusSize() && n + m <= |buf|
    modifies vol, vol.disk
    ensures vol.Valid() && Writing(vol.g, v0, cs0, vol.v, cs, k, pos, buf, n + m)
  {
    hide Rep, Writing, ClusBytes;
    WritingFacts(vol.g, v0, cs0, vol.v, cs, k, pos, buf, n, i);
    var cb := ReadCluster(vol, c);
    ghost var v1 := vol.v;
    ghost var kk := WriteCluster(vol, c, cb[..off] + buf[n..n + m] + cb[off + m..]);
    WritingChunk(vol.g, v0, cs0, v1, cs, k, pos, buf, n, i, off, m, kk);
  }

  /** The copying loop of fat_write_file. */
  method WriteFrom(vol: Volume, first: nat, first_off: nat, buf: seq<byte>, ghost first_i: nat, ghost pos: nat,
      ghost v0: Vol,
                   ghost cs0: seq<seq<nat>>, ghost cs: seq<seq<nat>>, ghost k: nat)
    returns (ok: bool, ghost n: nat, ghost cs': seq<seq<nat>>)
    requires vol.Valid() && Writing(vol.g, v0, cs0, vol.v, cs, k, pos, buf, 0) && first_i < |cs[k]| &&
             first == cs[k][first_i]
    requires pos == first_i * vol.g.ClusSize() + first_off && first_off < vol.g.ClusSize()
    modifies vol, vol.disk
    ensures vol.Valid() && Writing(vol.g, v0, cs0, vol.v, cs', k, pos, buf, n) && cs[k] <= cs'[k]
    ensures ok ==> n == |buf|
    ensures ok && |buf| > 0 ==> |cs'[k]| == |cs[k]| || (|cs'[k]| - 1) * vol.g.ClusSize() < pos + |buf|
    ensures !ok ==> NoneFree(vol.g, vol.v) && |cs'[k]| * vol.g.ClusSize() < pos + |buf|
  {
    hide Rep, Writing, NoneFree;
    var size := vol.g.ClusSize();
    var c, off, done := first, first_off, 0;
    ghost var i := first_i;
    cs', n := cs, 0;
    WritingFacts(vol.g, v0, cs0, vol.v, cs, k, pos, buf, 0, 0);
    while done < |buf|
      invariant 0 <= done <= |buf| && vol.Valid() && Writing(vol.g, v0, cs0, vol.v, cs', k, pos, buf, done) &&
                k < |cs'| && cs[k] <= cs'[k]
      invariant done < |buf| ==> 0 <= i < |cs'[k]| && c == cs'[k][i] && 0 <= off < size && i * size + off == pos + done
      invariant i >= 0 && (|cs'[k]| == |cs[k]| || |cs'[k]| == i + 1) && (|buf| > 0 ==> i * size < pos + |buf|)
      decreases |buf| - done
    {
      var chunk := if size - off > |buf| - done then |buf| - done else size - off;
      WriteChunk(vol, c, off, chunk, buf, done, i, v0, cs0, cs', k, pos);
      done := done + chunk;
      off := 0;
      if done < |buf| {
        assert pos + done == (i + 1) * size;
        ok, c, cs' := NextOrGrow(vol, c, i, v0, cs0, cs', k, pos, buf, done);
        WritingFacts(vol.g, v0, cs0, vol.v, cs', k, pos, buf, done, 0);
        if !ok { return false, done, cs'; }
        i := i + 1;
      }
    }
    return true, done, cs';
  }

  /** The file's clusters and the free ones together have room for `end` bytes. */
  ghost predicate RoomFor(g: Geo, t: seq<nat>, ch: seq<nat>, end: nat)
  {
    end <= (|ch| + FreeClus(t)) * g.ClusSize()
  }

  /** fat_write_file up to the update of the directory entry: on success the file is the old one
      with `buf` at the old position; no other file changes either way. It fails exactly if there are
      too few clusters, and takes none that it does not need. */
  method WriteData(vol: Volume, h: Handle, buf: seq<byte>, ghost cs: seq<seq<nat>>, ghost k: nat)
    returns (ok: bool, ghost n: nat, ghost cs': seq<seq<nat>>)
    requires vol.Valid() && ChainsOk(vol.g, vol.v.t, cs) && k < |cs| && h.Of(vol.v, vol.g, cs[k]) && h.pos <= h.size
    modifies vol, vol.disk, h
    ensures vol.Valid() && Writing(vol.g, old(vol.v), cs, vol.v, cs', k, old(h.pos), buf, n) &&
            h.Of(vol.v, vol.g, cs'[k])
    ensures ok <==> buf == [] || RoomFor(vol.g, old(vol.v).t, cs[k], old(h.pos) + |buf|)
    ensures !ok ==> h.pos == old(h.pos) && h.size == old(h.size) && NoneFree(vol.g, vol.v)
    ensures ok ==> |cs'[k]| == |cs[k]| || (|cs'[k]| - 1) * vol.g.ClusSize() < old(h.pos) + |buf|
    ensures ok ==> h.pos == old(h.pos) + |buf| && h.size == (if h.pos > old(h.size) then h.pos else old(h.size))
    ensures ok ==>
            Flat(vol.v.data, cs'[k])[..h.size] == Written(Flat(old(vol.v).data, cs[k])[..old(h.size)], old(h.pos), buf)
    ensures ok ==> BufOnDisk(vol.g, old(vol.disk[..]), cs[k], old(h.size), old(h.pos), buf, vol.disk[..], cs'[k])
  {
    hide Rep, Writing, Flat, NoneFree, RoomFor, BufOnDisk;
    SpcPositive(vol);
    SizedIs(vol.g, vol.disk[..], vol.v);
    ghost var v0 := vol.v;
    WritingStart(vol.g, v0, cs, k, h.pos, buf);
    cs', n, ok := cs, 0, true;
    if |buf| == 0 {
      NothingWritten(Flat(v0.data, cs[k])[..h.size], h.pos, buf);
      WrittenOnDisk(vol.g, vol.disk[..], v0, cs[k], h.size, h.pos, buf, vol.disk[..], v0, cs[k], h.size);
      return;
    }
    if h.start < 2 {
      WritingFacts(vol.g, v0, cs, v0, cs, k, h.pos, buf, 0, 0);
      var c := AllocCluster(vol);
      if c == 0 {
        NoRoomLeft(vol.g, v0, cs, vol.v, cs, k, h.pos, buf, 0);
        return false, 0, cs;
      }
      WritingMore(vol.g, v0, cs, v0, cs, k, h.pos, buf, 0, c, vol.v);
      cs' := cs[k := cs[k] + [c]];
      h.start := c;
    }
    WritingOf(vol.g, v0, cs, vol.v, cs', k, h.pos, buf, 0, h.size);
    var c;
    ghost var i;
    ok, c, i, cs' := SeekGrow(vol, h.start, h.pos, buf, v0, cs, cs', k);
    WritingOf(vol.g, v0, cs, vol.v, cs', k, h.pos, buf, 0, h.size);
    Quotient(h.pos, vol.g.ClusSize());
    if !ok {
      if |cs'[k]| < i { RowAfter(|cs'[k]|, i, vol.g.ClusSize()); }
      NoRoomLeft(vol.g, v0, cs, vol.v, cs', k, h.pos, buf, 0);
      return;
    }
    var off := h.pos % vol.g.ClusSize();
    ok, n, cs' := WriteFrom(vol, c, off, buf, i, h.pos, v0, cs, cs', k);
    WritingOf(vol.g, v0, cs, vol.v, cs', k, h.pos, buf, n, h.size);
    if !ok {
      NoRoomLeft(vol.g, v0, cs, vol.v, cs', k, h.pos, buf, n);
    } else {
      WritingDone(vol.g, v0, cs, vol.v, cs', k, h.pos, buf, h.size);
      HadRoom(vol.g, v0, cs, vol.v, cs', k, h.pos, buf);
      h.pos := h.pos + |buf|;
      if h.pos > h.size { h.size := h.pos; }
      WrittenOnDisk(vol.g, old(vol.disk[..]), v0, cs[k], old(h.size), old(h.pos), buf, vol.disk[..], vol.v, cs'[k],
        h.size);
    }
  }

  lemma HadRoom(g: Geo, v0: Vol, cs0: seq<seq<nat>>, v: Vol, cs: seq<seq<nat>>, k: nat, pos: nat, buf: seq<byte>)
    requires Writing(g, v0, cs0, v, cs, k, pos, buf, |buf|) && |buf| > 0
    ensures RoomFor(g, v0.t, cs0[k], pos + |buf|)
  {
    assert IsChain(g, v.t, cs[k]);
    ChainInData(g, v, cs[k]);
    FlatLen(v.data, cs[k], g.spc);
    hide Flat, FreeClus;
    if FreeClus(v.t) > 0 { RowAfter(|cs[k]|, |cs[k]| + FreeClus(v.t), g.ClusSize()); }
  }

  lemma NoRoomLeft(g: Geo, v0: Vol, cs0: seq<seq<nat>>, v: Vol, cs: seq<seq<nat>>, k: nat, pos: nat, buf: seq<byte>,
      n: nat)
    requires Writing(g, v0, cs0, v, cs, k, pos, buf, n) && NoneFree(g, v) && |cs[k]| * g.ClusSize() < pos + |buf|
    ensures !RoomFor(g, v0.t, cs0[k], pos + |buf|)
  {
    NoneFreeIs(g, v);
  }

  lemma NothingWritten(f: seq<byte>, pos: nat, buf: seq<byte>)
    requires pos <= |f| && buf == []
    ensures Written(f, pos, buf) == f
  {
  }

  lemma WritingOf(g: Geo, v0: Vol, cs0: seq<seq<nat>>, v: Vol, cs: seq<seq<nat>>, k: nat, pos: nat, buf: seq<byte>,
      n: nat, size: nat)
    requires Writing(g, v0, cs0, v, cs, k, pos, buf, n) && size <= |Flat(v0.data, cs0[k])|
    ensures k < |cs| && IsChain(g, v.t, cs[k]) && size <= |Flat(v.data, cs[k])|
  {
    assert IsChain(g, v.t, cs[k]);
  }

  lemma WritingDone(g: Geo, v0: Vol, cs0: seq<seq<nat>>, v: Vol, cs: seq<seq<nat>>, k: nat, pos: nat, buf: seq<byte>,
      size: nat)
    requires Writing(g, v0, cs0, v, cs, k, pos, buf, |buf|) && pos <= size <= |Flat(v0.data, cs0[k])| && |buf| > 0
    ensures var n := if pos + |buf| > size then pos + |buf| else size;
            n <= |Flat(v.data, cs[k])| && Flat(v.data, cs[k])[..n] == Written(Flat(v0.data, cs0[k])[..size], pos, buf)
  {
    SpliceDone(Flat(v0.data, cs0[k]), Flat(v.data, cs[k]), pos, buf, size);
  }

  /** On the disk `buf` is at byte `pos` of the file, and the other bytes of its first `size` are as they were. */
  ghost predicate BufOnDisk(g: Geo, d0: seq<Sector>, ch0: seq<nat>, size: nat, pos: nat, buf: seq<byte>, d: seq<Sector>,
      ch: seq<nat>)
  {
    && (forall i :: 0 <= i < |buf| ==> OnDisk(g, d, ch, pos + i, buf[i]))
    && (forall p: nat, b {:trigger OnDisk(g, d0, ch0, p, b)} ::
          p < size && !(pos <= p < pos + |buf|) && OnDisk(g, d0, ch0, p, b) ==> OnDisk(g, d, ch, p, b))
  }

  lemma WrittenOnDisk(g: Geo, d0: seq<Sector>, v0: Vol, ch0: seq<nat>, size: nat, pos: nat, buf: seq<byte>,
      d: seq<Sector>, v: Vol, ch: seq<nat>, n: nat)
    requires Rep(g, d0, v0) && IsChain(g, v0.t, ch0) && Rep(g, d, v) && IsChain(g, v.t, ch)
    requires pos <= size <= |Flat(v0.data, ch0)| && n <= |Flat(v.data, ch)|
    requires Flat(v.data, ch)[..n] == Written(Flat(v0.data, ch0)[..size], pos, buf)
    ensures BufOnDisk(g, d0, ch0, size, pos, buf, d, ch)
  {
    hide Rep, IsChain, Flat, OnDisk;
    var f0, f := Flat(v0.data, ch0), Flat(v.data, ch);
    forall i | 0 <= i < |buf|
      ensures OnDisk(g, d, ch, pos + i, buf[i])
    {
      assert f[..n][pos + i] == buf[i];
      FileOnDisk(g, d, v, ch, pos + i);
    }
    forall p: nat, b | p < size && !(pos <= p < pos + |buf|) && OnDisk(g, d0, ch0, p, b)
      ensures OnDisk(g, d, ch, p, b)
    {
      FileOnDisk(g, d0, v0, ch0, p);
      OneByte(g, d0, ch0, p, b, f0[p]);
      assert f[..n][p] == f0[..size][p];
      FileOnDisk(g, d, v, ch, p);
    }
  }

  lemma OneByte(g: Geo, d: seq<Sector>, ch: seq<nat>, p: nat, b: byte, c: byte)
    requires OnDisk(g, d, ch, p, b) && OnDisk(g, d, ch, p, c)
    ensures b == c
  {
  }

  /** No other file's bytes change. */
  lemma OthersSame(g: Geo, v0: Vol, cs0: seq<seq<nat>>, v: Vol, cs: seq<seq<nat>>, k: nat, pos: nat, buf: seq<byte>,
      n: nat, j: nat)
    requires Writing(g, v0, cs0, v, cs, k, pos, buf, n) && j < |cs| && j != k
    ensures cs[j] == cs0[j] && Flat(v.data, cs[j]) == Flat(v0.data, cs0[j])
  {
    assert IsChain(g, v.t, cs[j]);
    ChainInData(g, v, cs[j]);
    FlatFrame(v0.data, v.data, cs[j]);
  }
}
