/** Cluster chains: allocation, extension and freeing (kernel/fs/fat.c). */
module FatChain {
  import opened FatDisk

  predicate LinkAt(g: Geo, t: seq<nat>, ch: seq<nat>, i: nat)
  {
    i < |ch| ==>
      g.IsCluster(ch[i]) && ch[i] < |t| &&
      if i + 1 < |ch| then t[ch[i]] == ch[i + 1] else t[ch[i]] >= if g.fat32 then 0x0FFF_FFF8 else 0xFFF8
  }

  /** `ch` lists the clusters of a file in order: each entry names the next, the last is end-of-file.
      A file without clusters has the empty chain. */
  ghost predicate IsChain(g: Geo, t: seq<nat>, ch: seq<nat>)
  {
    forall i: nat {:trigger LinkAt(g, t, ch, i)} :: LinkAt(g, t, ch, i)
  }

  /** Element `a` of chain `j` and element `b` of chain `k` are the same only if they are one. */
  predicate Apart(cs: seq<seq<nat>>, j: nat, a: nat, k: nat, b: nat)
  {
    j < |cs| && k < |cs| && a < |cs[j]| && b < |cs[k]| && cs[j][a] == cs[k][b] ==> j == k && a == b
  }

  /** The chains of all files and directories: disjoint, without cycles, ended. */
  ghost predicate ChainsOk(g: Geo, t: seq<nat>, cs: seq<seq<nat>>)
  {
    && (forall k: nat {:trigger IsChain(g, t, cs[k])} :: k < |cs| ==> IsChain(g, t, cs[k]))
    && (forall j: nat, a: nat, k: nat, b: nat {:trigger Apart(cs, j, a, k, b)} :: Apart(cs, j, a, k, b))
  }

  /** A chain that ends visits no cluster twice. */
  lemma {:induction false} ChainDistinct(g: Geo, t: seq<nat>, ch: seq<nat>, a: nat, b: nat)
    requires IsChain(g, t, ch) && a < b < |ch| && g.clusters + 2 <= g.Eof()
    ensures ch[a] != ch[b]
    decreases |ch| - b
  {
    assert LinkAt(g, t, ch, a) && LinkAt(g, t, ch, b);
    if b + 1 < |ch| {
      ChainDistinct(g, t, ch, a + 1, b + 1);
    } else {
      assert LinkAt(g, t, ch, a + 1);
    }
  }

  /** The chain from a cluster is unique. */
  lemma {:induction false} ChainUnique(g: Geo, t: seq<nat>, c1: seq<nat>, c2: seq<nat>)
    requires IsChain(g, t, c1) && IsChain(g, t, c2) && c1 != [] && c2 != [] && c1[0] == c2[0] &&
             g.clusters + 2 <= g.Eof()
    ensures c1 == c2
    decreases |c1|
  {
    assert LinkAt(g, t, c1, 0) && LinkAt(g, t, c2, 0) && LinkAt(g, t, c1, 1) && LinkAt(g, t, c2, 1);
    if |c1| > 1 && |c2| > 1 {
      RestIsChain(g, t, c1);
      RestIsChain(g, t, c2);
      ChainUnique(g, t, c1[1..], c2[1..]);
      assert c1 == [c1[0]] + c1[1..] && c2 == [c2[0]] + c2[1..];
    }
  }

  lemma RestIsChain(g: Geo, t: seq<nat>, ch: seq<nat>)
    requires IsChain(g, t, ch) && ch != []
    ensures IsChain(g, t, ch[1..])
  {
    var r := ch[1..];
    forall i: nat
      ensures LinkAt(g, t, r, i)
    {
      assert LinkAt(g, t, ch, i + 1);
    }
  }

  /** A free cluster is in no chain. */
  lemma FreeNotIn(g: Geo, t: seq<nat>, ch: seq<nat>, c: nat)
    requires IsChain(g, t, ch) && c < |t| && t[c] == 0
    ensures c !in ch
  {
    forall i: nat | i < |ch|
      ensures ch[i] != c
    {
      assert LinkAt(g, t, ch, i) && LinkAt(g, t, ch, i + 1);
    }
  }

  /** Chains do not see a change to an entry outside them. */
  lemma ChainFrame(g: Geo, t: seq<nat>, ch: seq<nat>, c: nat, e: nat)
    requires IsChain(g, t, ch) && c < |t| && c !in ch
    ensures IsChain(g, t[c := e], ch)
  {
    var t' := t[c := e];
    forall i: nat
      ensures LinkAt(g, t', ch, i)
    {
      assert LinkAt(g, t, ch, i);
    }
  }

  // ----- a cluster more -----

  /** The FAT after free cluster `n` was made an end-of-file and linked after `ch`. */
  function Linked(g: Geo, t: seq<nat>, ch: seq<nat>, n: nat): seq<nat>
    requires n < |t| && (ch != [] ==> ch[|ch| - 1] < |t|)
  {
    if ch == [] then t[n := g.Eof()] else t[n := g.Eof()][ch[|ch| - 1] := n]
  }

  lemma ExtendChain(g: Geo, t: seq<nat>, ch: seq<nat>, n: nat)
    requires IsChain(g, t, ch) && g.IsCluster(n) && n < |t| && t[n] == 0 && g.clusters + 2 <= g.Eof()
    ensures ch != [] ==> ch[|ch| - 1] < |t|
    ensures IsChain(g, Linked(g, t, ch, n), ch + [n])
  {
    FreeNotIn(g, t, ch, n);
    if ch != [] { assert LinkAt(g, t, ch, |ch| - 1); }
    var t', c' := Linked(g, t, ch, n), ch + [n];
    forall i: nat
      ensures LinkAt(g, t', c', i)
    {
      assert LinkAt(g, t, ch, i);
      if i + 1 < |ch| { ChainDistinct(g, t, ch, i, |ch| - 1); }
    }
  }

  /** Extending one chain keeps all the others, and all disjoint. */
  lemma ExtendOk(g: Geo, t: seq<nat>, cs: seq<seq<nat>>, k: nat, n: nat)
    requires ChainsOk(g, t, cs) && k < |cs| && g.IsCluster(n) && n < |t| && t[n] == 0 && g.clusters + 2 <= g.Eof()
    ensures cs[k] != [] ==> cs[k][|cs[k]| - 1] < |t|
    ensures ChainsOk(g, Linked(g, t, cs[k], n), cs[k := cs[k] + [n]])
  {
    assert IsChain(g, t, cs[k]);
    ExtendChain(g, t, cs[k], n);
    var t', cs' := Linked(g, t, cs[k], n), cs[k := cs[k] + [n]];
    forall j: nat | j < |cs'|
      ensures IsChain(g, t', cs'[j])
    {
      if j != k { ExtendOther(g, t, cs, k, n, j); }
    }
    forall j: nat, a: nat, l: nat, b: nat
      ensures Apart(cs', j, a, l, b)
    {
      assert Apart(cs, j, a, l, b);
      if j < |cs| { assert IsChain(g, t, cs[j]); FreeNotIn(g, t, cs[j], n); }
      if l < |cs| { assert IsChain(g, t, cs[l]); FreeNotIn(g, t, cs[l], n); }
    }
  }

  lemma ExtendOther(g: Geo, t: seq<nat>, cs: seq<seq<nat>>, k: nat, n: nat, j: nat)
    requires ChainsOk(g, t, cs) && k < |cs| && j < |cs| && j != k && n < |t| && t[n] == 0 &&
             (cs[k] != [] ==> cs[k][|cs[k]| - 1] < |t|)
    ensures IsChain(g, Linked(g, t, cs[k], n), cs[j])
  {
    assert IsChain(g, t, cs[j]);
    FreeNotIn(g, t, cs[j], n);
    ChainFrame(g, t, cs[j], n, g.Eof());
    if cs[k] != [] {
      var last := |cs[k]| - 1;
      forall b: nat | b < |cs[j]|
        ensures cs[j][b] != cs[k][last]
      {
        assert Apart(cs, k, last, j, b);
      }
      ChainFrame(g, t[n := g.Eof()], cs[j], cs[k][last], n);
    }
  }

  // ----- freeing -----

  function NonZero(t: seq<nat>): (n: nat)
    ensures n <= |t|
  {
    if t == [] then 0 else NonZero(t[..|t| - 1]) + (if t[|t| - 1] == 0 then 0 else 1)
  }

  lemma {:induction false} NonZeroSet(t: seq<nat>, c: nat, e: nat)
    requires c < |t|
    ensures NonZero(t[c := e]) + (if t[c] == 0 then 0 else 1) == NonZero(t) + (if e == 0 then 0 else 1)
  {
    var n := |t| - 1;
    if c < n {
      NonZeroSet(t[..n], c, e);
      assert t[c := e][..n] == t[..n][c := e];
    } else {
      assert t[c := e][..n] == t[..n];
    }
  }

  /** Every entry is free, end-of-file, reserved or a cluster of the volume. */
  ghost predicate InRange(g: Geo, t: seq<nat>)
  {
    |t| == g.clusters + 2 && forall c :: 0 <= c < |t| ==> t[c] < g.clusters + 2 || g.IsEof(t[c])
  }

  predicate Goes(g: Geo, c: nat)
  {
    c >= 2 && !g.IsEof(c)
  }

  /** What fat_free_chain leaves, on any FAT in range, a cyclic one included. */
  function FreedFrom(g: Geo, t: seq<nat>, c: nat): (r: seq<nat>)
    ensures |r| == |t|
    decreases NonZero(t), if Goes(g, c) then 1 else 0
  {
    if Goes(g, c) && c < |t| then
      NonZeroSet(t, c, 0);
      assert t[c] == 0 ==> !Goes(g, t[c]);
      FreedFrom(g, t[c := 0], t[c])
    else t
  }

  /** The free clusters of a FAT; its first two entries stand for none. */
  function FreeClus(t: seq<nat>): nat
  {
    if |t| < 2 then 0 else |t| - 2 - NonZero(t[2..])
  }

  lemma FreeSet(t: seq<nat>, c: nat, e: nat)
    requires 2 <= c < |t|
    ensures FreeClus(t[c := e]) + (if t[c] == 0 then 1 else 0) == FreeClus(t) + (if e == 0 then 1 else 0)
  {
    NonZeroSet(t[2..], c - 2, e);
    assert t[c := e][2..] == t[2..][c - 2 := e];
  }

  lemma {:induction false} AllNonZero(t: seq<nat>)
    requires forall i :: 0 <= i < |t| ==> t[i] != 0
    ensures NonZero(t) == |t|
  {
    if t != [] { AllNonZero(t[..|t| - 1]); }
  }

  lemma NoneFreeIs(g: Geo, v: Vol)
    requires |v.t| == g.clusters + 2 && NoneFree(g, v)
    ensures FreeClus(v.t) == 0
  {
    forall i | 0 <= i < |v.t[2..]|
      ensures v.t[2..][i] != 0
    {
      assert g.IsCluster(i + 2);
    }
    AllNonZero(v.t[2..]);
  }

  /** Linking a free cluster makes one fewer free. */
  lemma LinkFree(g: Geo, t: seq<nat>, ch: seq<nat>, n: nat)
    requires IsChain(g, t, ch) && g.IsCluster(n) && n < |t| && t[n] == 0 && g.clusters + 2 <= g.Eof()
    ensures ch != [] ==> ch[|ch| - 1] < |t|
    ensures FreeClus(Linked(g, t, ch, n)) + 1 == FreeClus(t)
  {
    FreeNotIn(g, t, ch, n);
    FreeSet(t, n, g.Eof());
    if ch != [] {
      assert LinkAt(g, t, ch, |ch| - 1);
      FreeSet(t[n := g.Eof()], ch[|ch| - 1], n);
    }
  }

  /** Every cluster that fat_free_chain comes to from `c` is one of the volume. */
  ghost predicate Stays(g: Geo, t: seq<nat>, c: nat)
    decreases NonZero(t), if Goes(g, c) then 1 else 0
  {
    Goes(g, c) ==>
      c < |t| &&
      (NonZeroSet(t, c, 0);
       assert t[c] == 0 ==> !Goes(g, t[c]);
       Stays(g, t[c := 0], t[c]))
  }

  /** It does on every FAT whose entries are in range, a cyclic one included, */
  lemma {:induction false} InRangeStays(g: Geo, t: seq<nat>, c: nat)
    requires InRange(g, t) && (Goes(g, c) ==> c < |t|)
    ensures Stays(g, t, c)
    decreases NonZero(t), if Goes(g, c) then 1 else 0
  {
    if Goes(g, c) {
      NonZeroSet(t, c, 0);
      InRangeStays(g, t[c := 0], t[c]);
    }
  }

  /** and on every chain that ends, whatever is in the rest of the FAT. */
  lemma {:induction false} ChainStaysIn(g: Geo, t: seq<nat>, ch: seq<nat>)
    requires IsChain(g, t, ch) && ch != [] && g.clusters + 2 <= g.Eof()
    ensures Stays(g, t, ch[0])
    decreases |ch|
  {
    assert LinkAt(g, t, ch, 0) && LinkAt(g, t, ch, 1);
    if |ch| > 1 {
      var c, r := ch[0], ch[1..];
      RestIsChain(g, t, ch);
      forall i: nat | i < |r|
        ensures r[i] != c
      {
        ChainDistinct(g, t, ch, 0, i + 1);
      }
      ChainFrame(g, t, r, c, 0);
      ChainStaysIn(g, t[c := 0], r);
    }
  }

  function Cleared(t: seq<nat>, ch: seq<nat>): seq<nat>
  {
    seq(|t|, c requires 0 <= c < |t| => if c in ch then 0 else t[c])
  }

  /** Freeing a chain clears exactly its entries. */
  lemma {:induction false} FreedIsCleared(g: Geo, t: seq<nat>, ch: seq<nat>)
    requires IsChain(g, t, ch) && ch != [] && g.clusters + 2 <= g.Eof()
    ensures FreedFrom(g, t, ch[0]) == Cleared(t, ch)
    decreases |ch|
  {
    assert LinkAt(g, t, ch, 0) && LinkAt(g, t, ch, 1);
    var c, t' := ch[0], t[ch[0] := 0];
    if |ch| == 1 {
      assert t' == Cleared(t, ch);
    } else {
      var r := ch[1..];
      RestIsChain(g, t, ch);
      forall i: nat | i < |r|
        ensures r[i] != c
      {
        ChainDistinct(g, t, ch, 0, i + 1);
      }
      ChainFrame(g, t, r, c, 0);
      FreedIsCleared(g, t', r);
      assert Cleared(t', r) == Cleared(t, ch);
    }
  }

  /** The other chains survive, and the freed clusters are free. */
  lemma ClearedOk(g: Geo, t: seq<nat>, cs: seq<seq<nat>>, k: nat)
    requires ChainsOk(g, t, cs) && k < |cs|
    ensures ChainsOk(g, Cleared(t, cs[k]), cs[k := []])
  {
    var t', cs' := Cleared(t, cs[k]), cs[k := []];
    forall j: nat | j < |cs'|
      ensures IsChain(g, t', cs'[j])
    {
      if j != k {
        assert IsChain(g, t, cs[j]);
        forall i: nat
          ensures LinkAt(g, t', cs[j], i)
        {
          assert LinkAt(g, t, cs[j], i);
          forall b: nat | b < |cs[k]| && i < |cs[j]|
            ensures cs[k][b] != cs[j][i]
          {
            assert Apart(cs, j, i, k, b);
          }
        }
      }
    }
    forall j: nat, a: nat, l: nat, b: nat
      ensures Apart(cs', j, a, l, b)
    {
      assert Apart(cs, j, a, l, b);
    }
  }

  // ----- the same on disk -----

  /** fat_alloc_cluster: the lowest free cluster becomes a zeroed chain of its own; 0 if none is free. */
  method AllocCluster(vol: Volume) returns (c: nat)
    requires vol.Valid()
    modifies vol, vol.disk
    ensures vol.Valid()
    ensures c == 0 ==> vol.v == old(vol.v) && NoneFree(vol.g, vol.v)
    ensures c != 0 ==> NewCluster(vol.g, old(vol.v), c, vol.v)
  {
    hide Rep;
    SizedIs(vol.g, vol.disk[..], vol.v);
    c := 2;
    while c < vol.g.clusters + 2
      invariant 2 <= c <= vol.g.clusters + 2 && vol.Valid() && vol.v == old(vol.v)
      invariant forall e :: 2 <= e < c ==> vol.v.t[e] != 0
    {
      var e := vol.Get(c);
      if e == 0 {
        vol.Put(c, vol.g.Eof());
        vol.ZeroCluster(c);
        return;
      }
      c := c + 1;
    }
    c := 0;
  }

  ghost predicate NoneFree(g: Geo, v: Vol)
  {
    forall e: nat :: g.IsCluster(e) && e < |v.t| ==> v.t[e] != 0
  }

  /** Cluster `c` was the lowest free one, and is now a zeroed chain of its own. */
  ghost predicate NewCluster(g: Geo, v: Vol, c: nat, v': Vol)
  {
    && g.IsCluster(c) && c < |v.t| && c < |v.data| && v.t[c] == 0 && (forall e :: 2 <= e < c ==> v.t[e] != 0)
    && v' == v.WithFat(c, g.Eof()).WithCluster(c, Zeros(g.spc))
  }

  /** fat_free_chain: it ends wherever it starts, if it stays on the volume. */
  method FreeChain(vol: Volume, start: nat)
    requires vol.Valid() && Stays(vol.g, vol.v.t, start)
    modifies vol, vol.disk
    ensures vol.Valid() && vol.v == Vol(FreedFrom(vol.g, old(vol.v).t, start), old(vol.v).data, old(vol.v).root)
  {
    hide Rep;
    SizedIs(vol.g, vol.disk[..], vol.v);
    var c: nat := start;
    while Goes(vol.g, c)
      invariant vol.Valid() && Stays(vol.g, vol.v.t, c) && |vol.v.t| == vol.g.clusters + 2
      invariant vol.v == Vol(vol.v.t, old(vol.v).data, old(vol.v).root)
      invariant FreedFrom(vol.g, vol.v.t, c) == FreedFrom(vol.g, old(vol.v).t, start)
      decreases NonZero(vol.v.t), if Goes(vol.g, c) then 1 else 0
    {
      NonZeroSet(vol.v.t, c, 0);
      var next := vol.Get(c);
      vol.Put(c, 0);
      c := next;
    }
  }
}
