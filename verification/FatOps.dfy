/** Whole file-system operations: write with its directory entry, unlink, path look-up and rename
    (kernel/fs/fat.c). */
module FatOps {
  import opened Tiny
  import opened FatDisk
  import opened FatChain
  import opened FatFile
  import opened FatDir
  import opened FatEdit
  import opened FatRename
  import opened FatTree

  // ----- rename -----

  /** fat_rename_path between two directories, to a name that is not there. It succeeds exactly if the
      entry exists, no directory would move into itself or below, and the target directory has room. */
  method RenamePath(vol: Volume, k1: nat, n1: Name, k2: nat, n2: Name, ghost t: Tree)
    returns (ok: bool, ghost d2: DirRef)
    requires vol.Valid() && TreeOk(vol.g, vol.v, t) && RootPlain(vol.g, vol.v, t) && k1 in t.dirs && k2 in t.dirs &&
             k1 != k2
    requires Proper(n1) && Proper(n2) && Plain(n2) && AskAt(vol.g, vol.v, t, k2, n2) == None
    modifies vol, vol.disk
    ensures vol.Valid()
    ensures ok <==> MayMove(vol.g, old(vol.v), t, k1, n1, k2, n2) && !NoRoom(vol.g, old(vol.v), t.dirs[k2])
    ensures !ok ==> vol.v == old(vol.v)
    ensures ok ==> MoveDone(vol.g, old(vol.v), t, k1, n1, k2, n2, vol.v, d2)
    ensures ok ==> TreeOk(vol.g, vol.v, TreeAfter(vol.g, old(vol.v), t, k1, n1, k2, d2))
  {
    hide Rep, DirOk, CurAt, Slot, HasEnt, Decode, Look, RefsApart, DirSecs, IsDirRef, NoRoom, Moved, TreeOk,
         TreeAfter, RootPlain, KeyOf,
         Above, Dot, DotDot;
    ghost var v := vol.v;
    d2 := t.dirs[k2];
    KeyFacts(vol.g, v, t, k1);
    KeyFacts(vol.g, v, t, k2);
    var found, cur, j;
    ghost var i, p;
    found, cur, j, i, p := FindEntry(vol, k1, n1, true, t.dirs[k1]);
    if !found {
      NotThere(vol.g, v, t, k1, n1);
      return false, d2;
    }
    SpcPositive(vol);
    SizedIs(vol.g, vol.disk[..], vol.v);
    CurFacts(vol.g, v, t.dirs[k1], cur, i, p);
    var sec := ReadAt(vol, cur, t.dirs[k1], i, p);
    var m := Decode(EntIn(sec, j), vol.g.fat32);
    SlotHere(DirSecs(v, t.dirs[k1]), p, j);
    MovedMeta(vol.g, v, t.dirs[k1], n1, 16 * p + j);
    assert AskAt(vol.g, v, t, k1, n1) == Some(m);
    if m.IsDir() {
      ChildFacts(vol.g, v, t, k1, n1);
      if k2 == m.clus { return false, d2; }
      var up := HasAncestor(vol, k2, m.clus, t);
      if up { return false, d2; }
    }
    MayMoveIs(vol.g, v, t, k1, n1, k2, n2);
    ok, d2 := RenameCross(vol, k1, n1, k2, n2, t.dirs[k1], t.dirs[k2], MovedRef(vol.g, v, t, k1, n1));
    if ok { MoveKeepsTree(vol.g, v, t, k1, n1, k2, n2, vol.v, d2); }
  }

  lemma KeyFacts(g: Geo, v: Vol, t: Tree, k: nat)
    requires TreeOk(g, v, t) && k in t.dirs
    ensures IsDirRef(g, v, t.dirs[k]) && KeyOf(t.dirs[k]) == k && DirOk(DirSecs(v, t.dirs[k])) && Names(g, k, t.dirs[k])
  {
    assert Node(g, v, t, k);
  }

  lemma NotThere(g: Geo, v: Vol, t: Tree, k: nat, n: Name)
    requires k in t.dirs && forall i: nat :: !HasEnt(DirSecs(v, t.dirs[k]), n, i)
    ensures AskAt(g, v, t, k, n) == None
  {
  }

  lemma ChildFacts(g: Geo, v: Vol, t: Tree, k: nat, n: Name)
    requires TreeOk(g, v, t) && k in t.dirs && Proper(n) && AskAt(g, v, t, k, n).Some? &&
             AskAt(g, v, t, k, n).value.IsDir()
    ensures AskAt(g, v, t, k, n).value.clus in t.dirs && AskAt(g, v, t, k, n).value.clus != t.root
  {
    assert Edge(g, v, t, k, n);
  }

  // ----- path look-up -----

  /** fat_resolve, its path already cut into 8.3 names. */
  method ResolvePath(vol: Volume, path: seq<Name>, ghost t: Tree) returns (found: bool, m: Meta)
    requires vol.Valid() && TreeOk(vol.g, vol.v, t) && AllProper(path)
    ensures found <==> Resolve(vol.g, vol.v, t, path).Some?
    ensures found ==> Resolve(vol.g, vol.v, t, path) == Some(m)
  {
    hide Rep, DirOk, CurAt, Slot, HasEnt, Decode, Look, DirSecs, IsDirRef, TreeOk, KeyOf, Ask;
    m := Meta(0, 0, 0, 0, 0, 0, 0, 0);
    if path == [] { return false, m; }
    var k := if vol.g.fat32 then vol.g.rootClus else 0;
    RootIs(vol.g, vol.v, t);
    var last, i := |path| - 1, 0;
    assert path[..last][0..] == path[..last];
    while i < last
      invariant 0 <= i <= last && 0 <= k && k in t.dirs
      invariant Walk(vol.g, vol.v, t, t.root, path[..last]) == Walk(vol.g, vol.v, t, k, path[..last][i..])
    {
      var ok;
      ok, m := LookUp(vol, k, path[i], t);
      assert path[..last][i..][0] == path[i] && path[..last][i..][1..] == path[..last][i + 1..];
      if !ok || !m.IsDir() { return false, m; }
      ChildFacts(vol.g, vol.v, t, k, path[i]);
      k := m.clus;
      i := i + 1;
    }
    assert path[..last][last..] == [];
    found, m := LookUp(vol, k, path[last], t);
  }

  lemma RootIs(g: Geo, v: Vol, t: Tree)
    requires TreeOk(g, v, t)
    ensures t.root in t.dirs && t.root == if g.fat32 then g.rootClus else 0
  {
  }

  /** find_in_dir. */
  method LookIn(vol: Volume, key: nat, n: Name, ghost d: DirRef) returns (found: bool, m: Meta)
    requires vol.Valid() && IsDirRef(vol.g, vol.v, d) && Names(vol.g, key, d) && DirOk(DirSecs(vol.v, d))
    ensures found <==> Ask(vol.g, vol.v, d, n).Some?
    ensures found ==> Ask(vol.g, vol.v, d, n) == Some(m)
  {
    hide Rep, DirOk, CurAt, Slot, HasEnt, Decode, Look, DirSecs, IsDirRef;
    m := Meta(0, 0, 0, 0, 0, 0, 0, 0);
    var cur, j;
    ghost var i, p;
    found, cur, j, i, p := FindEntry(vol, key, n, true, d);
    if !found {
      AbsentIs(vol.g, vol.v, d, n);
      return;
    }
    SpcPositive(vol);
    SizedIs(vol.g, vol.disk[..], vol.v);
    CurFacts(vol.g, vol.v, d, cur, i, p);
    var sec := ReadAt(vol, cur, d, i, p);
    SlotHere(DirSecs(vol.v, d), p, j);
    MovedMeta(vol.g, vol.v, d, n, 16 * p + j);
    m := Decode(EntIn(sec, j), vol.g.fat32);
  }

  /** find_in_dir in a directory of the tree. */
  method LookUp(vol: Volume, k: nat, n: Name, ghost t: Tree) returns (found: bool, m: Meta)
    requires vol.Valid() && TreeOk(vol.g, vol.v, t) && k in t.dirs
    ensures found <==> AskAt(vol.g, vol.v, t, k, n).Some?
    ensures found ==> AskAt(vol.g, vol.v, t, k, n) == Some(m)
  {
    hide Rep, DirOk, DirSecs, IsDirRef, TreeOk, KeyOf, Ask;
    KeyFacts(vol.g, vol.v, t, k);
    found, m := LookIn(vol, k, n, t.dirs[k]);
  }

  // ----- write, with the directory entry -----

  lemma {:induction false} ClusCat(a: Cluster, b: Cluster)
    ensures ClusBytes(a + b) == ClusBytes(a) + ClusBytes(b)
  {
    if a == [] {
      assert a + b == b;
    } else {
      ClusCat(a[1..], b);
      assert (a + b)[1..] == a[1..] + b;
    }
  }

  /** A file's bytes are those of its sectors. */
  lemma {:induction false} FlatIsSecs(data: seq<Cluster>, ch: seq<nat>)
    ensures Flat(data, ch) == ClusBytes(Secs(data, ch))
    decreases |ch|
  {
    if ch != [] && ch[0] < |data| {
      FlatIsSecs(data, ch[1..]);
      ClusCat(data[ch[0]], Secs(data, ch[1..]));
    }
  }

  function SetSize(e: Ent, n: nat): Ent
  {
    e[28 := Low(n % 0x1_0000)][29 := High(n % 0x1_0000)][30 := Low(n / 0x1_0000)][31 := High(n / 0x1_0000)]
  }

  lemma SetSizeDecode(e: Ent, n: nat, fat32: bool)
    requires n < 0x1_0000_0000
    ensures Decode(SetSize(e, n), fat32) == Decode(e, fat32).(size := n) && SetSize(e, n)[..12] == e[..12]
  {
    var e' := SetSize(e, n);
    ReadPair(e', 28, n % 0x1_0000);
    ReadPair(e', 30, n / 0x1_0000);
    hide Low, High, Le16;
  }

  /** root_update_dirent: the entry of that name gets a new start and size. */
  method UpdateEntry(vol: Volume, n: Name, start: nat, size: nat, ghost d: DirRef) returns (found: bool)
    requires vol.Valid() && IsDirRef(vol.g, vol.v, d) && KeyOf(d) == (if vol.g.fat32 then vol.g.rootClus else 0) &&
             DirOk(DirSecs(vol.v, d))
    requires start < vol.g.clusters + 2 && size < 0x1_0000_0000
    modifies vol, vol.disk
    ensures vol.Valid() && (found <==> Ask(vol.g, old(vol.v), d, n).Some?)
    ensures !found ==> vol.v == old(vol.v)
    ensures found ==>
            EntrySet(vol.g, old(vol.v), d, n, Ask(vol.g, old(vol.v), d, n).value.(clus := start, size := size), vol.v)
  {
    hide Rep, DirOk, CurAt, DirSecs, SlotWritten, Slot, EntrySet, PutEnt, IsDirRef, Decode, SetSize, SetClus;
    ghost var v0 := vol.v;
    var cur, j;
    ghost var i, p;
    found, cur, j, i, p := FindEntry(vol, if vol.g.fat32 then vol.g.rootClus else 0, n, true, d);
    if !found { return; }
    SpcPositive(vol);
    SizedIs(vol.g, vol.disk[..], vol.v);
    CurFacts(vol.g, v0, d, cur, i, p);
    var sec := ReadAt(vol, cur, d, i, p);
    var e := EntIn(sec, j);
    SlotHere(DirSecs(v0, d), p, j);
    LookIs(DirSecs(v0, d), n, vol.g.fat32, 16 * p + j);
    var e' := SetSize(SetClus(e, start), size);
    SetClusDecode(e, start, vol.g.fat32);
    SetSizeDecode(SetClus(e, start), size, vol.g.fat32);
    WriteSlot(vol, cur, j, e', d, i, p);
    SetIs(vol.g, v0, d, n, p, j, e', vol.v);
  }

  /** A write to the chain `k` does not touch the root directory. */
  lemma WriteKeepsRoot(g: Geo, v0: Vol, cs0: seq<seq<nat>>, v: Vol, cs: seq<seq<nat>>, k: nat, pos: nat,
      buf: seq<byte>, n: nat, d: DirRef)
    requires Writing(g, v0, cs0, v, cs, k, pos, buf, n) && IsRoot(g, v0, cs0, k, d)
    ensures k < |cs| && IsDirRef(g, v, d) && DirSecs(v, d) == DirSecs(v0, d) && RefsApart(d, Chain(cs[k]))
  {
    if d.Chain? {
      var r: nat :| r < |cs0| && r != k && d.ch == cs0[r];
      assert IsChain(g, v.t, cs[r]);
      ChainInData(g, v, cs[r]);
      SecsFrame(v0.data, v.data, cs[r]);
      forall i: nat, j: nat | i < |cs[r]| && j < |cs[k]|
        ensures cs[r][i] != cs[k][j]
      {
        assert Apart(cs, r, i, k, j);
      }
    }
  }

  /** `d` is the root directory: fixed, or one of the other chains. */
  ghost predicate IsRoot(g: Geo, v: Vol, cs: seq<seq<nat>>, k: nat, d: DirRef)
  {
    && IsDirRef(g, v, d) && KeyOf(d) == (if g.fat32 then g.rootClus else 0)
    && (d.Chain? ==> exists r: nat :: r < |cs| && r != k && d.ch == cs[r])
  }

  /** File or directory `j` is neither the one written to nor the root directory: its chain, bytes and sectors
      are as they were. */
  ghost predicate FileKept(v: Vol, cs: seq<seq<nat>>, k: nat, d: DirRef, v': Vol, cs': seq<seq<nat>>, j: nat)
  {
    j < |cs| && j != k && (d.Chain? ==> cs[j] != d.ch) ==>
      j < |cs'| && cs'[j] == cs[j] && Flat(v'.data, cs'[j]) == Flat(v.data, cs[j]) &&
      DirSecs(v', Chain(cs[j])) == DirSecs(v, Chain(cs[j]))
  }

  ghost predicate FilesKept(v: Vol, cs: seq<seq<nat>>, k: nat, d: DirRef, v': Vol, cs': seq<seq<nat>>)
  {
    forall j: nat {:trigger FileKept(v, cs, k, d, v', cs', j)} :: FileKept(v, cs, k, d, v', cs', j)
  }

  lemma WriteKeepsSecs(g: Geo, v0: Vol, cs0: seq<seq<nat>>, v: Vol, cs: seq<seq<nat>>, k: nat, pos: nat,
      buf: seq<byte>, n: nat, j: nat)
    requires Writing(g, v0, cs0, v, cs, k, pos, buf, n) && j < |cs0| && j != k
    ensures j < |cs| && cs[j] == cs0[j] && DirSecs(v, Chain(cs[j])) == DirSecs(v0, Chain(cs[j]))
  {
    assert IsChain(g, v.t, cs[j]);
    ChainInData(g, v, cs[j]);
    SecsFrame(v0.data, v.data, cs[j]);
  }

  /** The data is written, but not yet the entry. */
  lemma WriteKeepsFiles(g: Geo, v0: Vol, cs0: seq<seq<nat>>, v: Vol, cs: seq<seq<nat>>, k: nat, pos: nat,
      buf: seq<byte>, n: nat, d: DirRef)
    requires Writing(g, v0, cs0, v, cs, k, pos, buf, n)
    ensures FilesKept(v0, cs0, k, d, v, cs) && ChainsOk(g, v.t, cs) && |cs| == |cs0| && k < |cs|
  {
    forall j: nat
      ensures FileKept(v0, cs0, k, d, v, cs, j)
    {
      if j < |cs0| && j != k {
        OthersSame(g, v0, cs0, v, cs, k, pos, buf, n, j);
        WriteKeepsSecs(g, v0, cs0, v, cs, k, pos, buf, n, j);
      }
    }
  }

  /** The root directory is still there, and among the other chains. */
  lemma WriteRootStays(g: Geo, v0: Vol, cs0: seq<seq<nat>>, v: Vol, cs: seq<seq<nat>>, k: nat, pos: nat,
      buf: seq<byte>, n: nat, d: DirRef)
    requires Writing(g, v0, cs0, v, cs, k, pos, buf, n) && IsRoot(g, v0, cs0, k, d)
    ensures IsRoot(g, v, cs, k, d)
  {
    hide Flat, Spliced;
    WriteKeepsRoot(g, v0, cs0, v, cs, k, pos, buf, n, d);
    if d.Chain? {
      var r: nat :| r < |cs0| && r != k && d.ch == cs0[r];
      assert r < |cs| && r != k && d.ch == cs[r];
    }
  }

  /** A chain other than the root directory's shares no cluster with it. */
  lemma RootApart(g: Geo, v: Vol, cs: seq<seq<nat>>, k: nat, d: DirRef, j: nat)
    requires ChainsOk(g, v.t, cs) && IsRoot(g, v, cs, k, d) && j < |cs| && (d.Chain? ==> cs[j] != d.ch)
    ensures RefsApart(d, Chain(cs[j])) && IsChain(g, v.t, cs[j])
  {
    assert IsChain(g, v.t, cs[j]);
    if d.Chain? {
      var r: nat :| r < |cs| && r != k && d.ch == cs[r];
      forall a: nat, b: nat | a < |cs[r]| && b < |cs[j]|
        ensures cs[r][a] != cs[j][b]
      {
        assert Apart(cs, r, a, j, b);
      }
    }
  }

  lemma SetKeepsSecs(g: Geo, v: Vol, d: DirRef, n: Name, m: Meta, v': Vol, ch: seq<nat>)
    requires EntrySet(g, v, d, n, m, v') && IsChain(g, v.t, ch) && RefsApart(d, Chain(ch))
    ensures DirSecs(v', Chain(ch)) == DirSecs(v, Chain(ch))
  {
    hide Look, DirOk, RefsApart;
    assert ch != [] ==> IsDirRef(g, v, Chain(ch));
  }

  /** The entry is rewritten: every file keeps its bytes. */
  lemma SetKeepsFiles(g: Geo, v0: Vol, cs0: seq<seq<nat>>, k: nat, d: DirRef, v: Vol, cs: seq<seq<nat>>, n: Name,
      m: Meta, v': Vol)
    requires FilesKept(v0, cs0, k, d, v, cs) && ChainsOk(g, v.t, cs) && IsRoot(g, v, cs, k, d) && |cs| == |cs0| &&
             EntrySet(g, v, d, n, m, v')
    ensures FilesKept(v0, cs0, k, d, v', cs)
  {
    hide ChainsOk, IsRoot, EntrySet, Flat;
    forall j: nat
      ensures FileKept(v0, cs0, k, d, v', cs, j)
    {
      assert FileKept(v0, cs0, k, d, v, cs, j);
      if j < |cs0| && j != k && (d.Chain? ==> cs0[j] != d.ch) {
        RootApart(g, v, cs, k, d, j);
        SetKeepsFile(g, v, d, n, m, v', cs[j]);
        SetKeepsSecs(g, v, d, n, m, v', cs[j]);
      }
    }
  }

  lemma SetRootStays(g: Geo, v: Vol, cs: seq<seq<nat>>, k: nat, d: DirRef, n: Name, m: Meta, v': Vol)
    requires IsRoot(g, v, cs, k, d) && EntrySet(g, v, d, n, m, v')
    ensures IsRoot(g, v', cs, k, d) && DirOk(DirSecs(v', d)) && v'.t == v.t
  {
    hide Look, DirOk, RefsApart;
  }

  /** fat_write_file on a file of the root directory: the file's bytes, its entry and its handle agree
      afterwards, no other file changes, and all is ready for the next call. */
  method WriteFile(vol: Volume, h: Handle, buf: seq<byte>, ghost d: DirRef, ghost cs: seq<seq<nat>>, ghost k: nat)
    returns (ok: bool, ghost cs': seq<seq<nat>>)
    requires vol.Valid() && ChainsOk(vol.g, vol.v.t, cs) && k < |cs| && h.Of(vol.v, vol.g, cs[k]) && h.pos <= h.size
    requires IsRoot(vol.g, vol.v, cs, k, d) && DirOk(DirSecs(vol.v, d)) && |h.name| == 11
    requires h.pos + |buf| < 0x1_0000_0000 && h.size < 0x1_0000_0000
    modifies vol, vol.disk, h
    ensures vol.Valid() && ChainsOk(vol.g, vol.v.t, cs') && |cs'| == |cs| && cs[k] <= cs'[k] &&
            h.Of(vol.v, vol.g, cs'[k])
    ensures IsRoot(vol.g, vol.v, cs', k, d) && DirOk(DirSecs(vol.v, d)) && FilesKept(old(vol.v), cs, k, d, vol.v, cs')
    ensures ok <==> buf == [] || RoomFor(vol.g, old(vol.v).t, cs[k], old(h.pos) + |buf|)
    ensures ok ==> |cs'[k]| == |cs[k]| || (|cs'[k]| - 1) * vol.g.ClusSize() < old(h.pos) + |buf|
    ensures !ok ==> h.pos == old(h.pos) && h.size == old(h.size) && NoneFree(vol.g, vol.v)
    ensures ok ==> h.pos == old(h.pos) + |buf| && h.size == (if h.pos > old(h.size) then h.pos else old(h.size))
    ensures ok ==>
            Flat(vol.v.data, cs'[k])[..h.size] == Written(Flat(old(vol.v).data, cs[k])[..old(h.size)], old(h.pos), buf)
    ensures forall x :: Ask(vol.g, vol.v, d, x) ==
              if ok && |buf| > 0 && x == h.name && Ask(vol.g, old(vol.v), d, x).Some?
              then Some(Ask(vol.g, old(vol.v), d, x).value.(clus := h.start, size := h.size))
              else Ask(vol.g, old(vol.v), d, x)
    ensures ok ==> BufOnDisk(vol.g, old(vol.disk[..]), cs[k], old(h.size), old(h.pos), buf, vol.disk[..], cs'[k])
  {
    hide Rep, Writing, Flat, DirOk, DirSecs, Look, EntrySet, IsRoot, RefsApart, ChainsOk, FilesKept, NoneFree, Written,
         RoomFor, BufOnDisk;
    ghost var v0 := vol.v;
    RootRef(vol.g, v0, cs, k, d);
    ghost var n;
    ok, n, cs' := WriteData(vol, h, buf, cs, k);
    ghost var v1 := vol.v;
    WriteKeepsRoot(vol.g, v0, cs, v1, cs', k, old(h.pos), buf, n, d);
    WriteRootStays(vol.g, v0, cs, v1, cs', k, old(h.pos), buf, n, d);
    WriteKeepsFiles(vol.g, v0, cs, v1, cs', k, old(h.pos), buf, n, d);
    Longer(vol.g, v0, cs, v1, cs', k, old(h.pos), buf, n);
    if !ok || |buf| == 0 { return; }
    StartIs(vol.g, v1, cs'[k], h.start);
    var found := UpdateEntry(vol, h.name, h.start, h.size, d);
    if found {
      ghost var m := Ask(vol.g, v0, d, h.name).value.(clus := h.start, size := h.size);
      SetKeepsFile(vol.g, v1, d, h.name, m, vol.v, cs'[k]);
      SetKeepsFiles(vol.g, v0, cs, k, d, v1, cs', h.name, m, vol.v);
      SetRootStays(vol.g, v1, cs', k, d, h.name, m, vol.v);
      SetAnswers(vol.g, v1, d, h.name, m, vol.v);
    }
    WrittenOnDisk(vol.g, old(vol.disk[..]), v0, cs[k], old(h.size), old(h.pos), buf, vol.disk[..], vol.v, cs'[k],
      h.size);
  }

  lemma Longer(g: Geo, v0: Vol, cs0: seq<seq<nat>>, v: Vol, cs: seq<seq<nat>>, k: nat, pos: nat, buf: seq<byte>, n: nat)
    requires Writing(g, v0, cs0, v, cs, k, pos, buf, n)
    ensures k < |cs| && k < |cs0| && cs0[k] <= cs[k]
  {
  }

  lemma SetAnswers(g: Geo, v: Vol, d: DirRef, n: Name, m: Meta, v': Vol)
    requires EntrySet(g, v, d, n, m, v')
    ensures forall x :: Ask(g, v', d, x) == if x == n then Some(m) else Ask(g, v, d, x)
  {
  }

  /** Written, opened again through its directory entry and read from the start, a file is the old one with
      the buffer at the old position. */
  method WriteThenRead(vol: Volume, h: Handle, buf: seq<byte>, ghost d: DirRef, ghost cs: seq<seq<nat>>, ghost k: nat)
    returns (ok: bool, out: seq<byte>)
    requires vol.Valid() && ChainsOk(vol.g, vol.v.t, cs) && k < |cs| && h.Of(vol.v, vol.g, cs[k]) && h.pos <= h.size
    requires IsRoot(vol.g, vol.v, cs, k, d) && DirOk(DirSecs(vol.v, d)) && |h.name| == 11 && |buf| > 0
    requires h.pos + |buf| < 0x1_0000_0000 && h.size < 0x1_0000_0000 && Ask(vol.g, vol.v, d, h.name).Some?
    modifies vol, vol.disk, h
    ensures ok <==> RoomFor(vol.g, old(vol.v).t, cs[k], old(h.pos) + |buf|)
    ensures ok ==> out == Written(Flat(old(vol.v).data, cs[k])[..old(h.size)], old(h.pos), buf)
  {
    hide Rep, Flat, DirOk, DirSecs, Look, IsRoot, ChainsOk, FilesKept, NoneFree, Written, IsChain, RoomFor;
    ghost var cs';
    ok, cs' := WriteFile(vol, h, buf, d, cs, k);
    out := [];
    if ok {
      RootRef(vol.g, vol.v, cs', k, d);
      RootNamed(vol.g, d);
      var found, m := LookIn(vol, if vol.g.fat32 then vol.g.rootClus else 0, h.name, d);
      var r := new Handle(h.name, m.clus, m.size);
      var done;
      done, out := ReadFile(vol, r, m.size, cs'[k]);
      assert Flat(vol.v.data, cs'[k])[..h.size][0..h.size] == Flat(vol.v.data, cs'[k])[..h.size];
    }
  }

  /** fat_write_file on a file of directory `j`, which is not the root: the entry that is rewritten is the one of
      that name in the root, if there is one. The file's own entry stays, so it agrees with the file afterwards
      exactly if the write did not reach past the end. */
  method WriteBelow(vol: Volume, h: Handle, buf: seq<byte>, ghost d: DirRef, ghost cs: seq<seq<nat>>, ghost k: nat,
      ghost j: nat)
    returns (ok: bool, ghost cs': seq<seq<nat>>)
    requires vol.Valid() && ChainsOk(vol.g, vol.v.t, cs) && k < |cs| && h.Of(vol.v, vol.g, cs[k]) && h.pos <= h.size
    requires IsRoot(vol.g, vol.v, cs, k, d) && DirOk(DirSecs(vol.v, d)) && |h.name| == 11 && |buf| > 0
    requires h.pos + |buf| < 0x1_0000_0000 && h.size < 0x1_0000_0000
    requires j < |cs| && j != k && (d.Chain? ==> cs[j] != d.ch) && Ask(vol.g, vol.v, Chain(cs[j]), h.name).Some?
    requires var m := Ask(vol.g, vol.v, Chain(cs[j]), h.name).value; m.clus == h.start && m.size == h.size
    modifies vol, vol.disk, h
    ensures vol.Valid() && |cs'| == |cs| && h.Of(vol.v, vol.g, cs'[k]) && cs'[j] == cs[j]
    ensures ok <==> RoomFor(vol.g, old(vol.v).t, cs[k], old(h.pos) + |buf|)
    ensures forall x :: Ask(vol.g, vol.v, Chain(cs[j]), x) == Ask(vol.g, old(vol.v), Chain(cs[j]), x)
    ensures ok ==> var m := Ask(vol.g, vol.v, Chain(cs[j]), h.name).value;
            m.clus == h.start && m.size == h.size <==> old(h.pos) + |buf| <= old(h.size)
    ensures ok && Ask(vol.g, old(vol.v), d, h.name).Some? ==>
            Ask(vol.g, vol.v, d, h.name) ==
            Some(Ask(vol.g, old(vol.v), d, h.name).value.(clus := h.start, size := h.size))
  {
    hide Rep, Flat, DirOk, DirSecs, Look, IsRoot, ChainsOk, FilesKept, NoneFree, Written, IsChain, RoomFor;
    ghost var v0 := vol.v;
    ok, cs' := WriteFile(vol, h, buf, d, cs, k);
    KeptFile(v0, cs, k, d, vol.v, cs', j);
    assert DirSecs(vol.v, Chain(cs[j])) == DirSecs(v0, Chain(cs[j]));
    assert cs[k] == [] ==> old(h.size) == 0 by { if cs[k] == [] { FlatNone(v0.data); } }
  }

  lemma KeptFile(v: Vol, cs: seq<seq<nat>>, k: nat, d: DirRef, v': Vol, cs': seq<seq<nat>>, j: nat)
    requires FilesKept(v, cs, k, d, v', cs')
    ensures FileKept(v, cs, k, d, v', cs', j)
  {
  }

  lemma FlatNone(data: seq<Cluster>)
    ensures Flat(data, []) == []
  {
  }

  lemma RootNamed(g: Geo, d: DirRef)
    requires KeyOf(d) == if g.fat32 then g.rootClus else 0
    ensures Names(g, if g.fat32 then g.rootClus else 0, d)
  {
  }

  lemma RootRef(g: Geo, v: Vol, cs: seq<seq<nat>>, k: nat, d: DirRef)
    requires IsRoot(g, v, cs, k, d)
    ensures IsDirRef(g, v, d) && KeyOf(d) == if g.fat32 then g.rootClus else 0
  {
  }

  lemma StartIs(g: Geo, v: Vol, ch: seq<nat>, start: nat)
    requires IsChain(g, v.t, ch) && (if ch == [] then start < 2 else start == ch[0])
    ensures start < g.clusters + 2
  {
    assert LinkAt(g, v.t, ch, 0);
  }

  lemma SetKeepsFile(g: Geo, v: Vol, d: DirRef, n: Name, m: Meta, v': Vol, ch: seq<nat>)
    requires EntrySet(g, v, d, n, m, v') && IsChain(g, v.t, ch) && RefsApart(d, Chain(ch))
    ensures Flat(v'.data, ch) == Flat(v.data, ch) && v'.t == v.t
  {
    hide Look, DirOk, RefsApart;
    FlatIsSecs(v.data, ch);
    FlatIsSecs(v'.data, ch);
    if ch != [] { assert DirSecs(v', Chain(ch)) == DirSecs(v, Chain(ch)); }
  }

  // ----- unlink -----

  function Free(t: seq<nat>): nat
  {
    |t| - NonZero(t)
  }

  /** Freeing a chain makes as many clusters free as it has. */
  lemma {:induction false} ClearedCount(g: Geo, t: seq<nat>, ch: seq<nat>)
    requires IsChain(g, t, ch) && g.clusters + 2 <= g.Eof()
    ensures Free(Cleared(t, ch)) == Free(t) + |ch|
    decreases |ch|
  {
    if ch == [] {
      assert Cleared(t, ch) == t;
    } else {
      assert LinkAt(g, t, ch, 0) && LinkAt(g, t, ch, 1);
      RestIsChain(g, t, ch);
      forall i: nat | i < |ch| - 1
        ensures ch[1..][i] != ch[0]
      {
        ChainDistinct(g, t, ch, 0, i + 1);
      }
      ChainFrame(g, t, ch[1..], ch[0], 0);
      ClearedCount(g, t[ch[0] := 0], ch[1..]);
      NonZeroSet(t, ch[0], 0);
      assert Cleared(t[ch[0] := 0], ch[1..]) == Cleared(t, ch);
    }
  }

  /** Linking a fresh cluster makes one cluster less free. */
  lemma LinkedCount(g: Geo, t: seq<nat>, ch: seq<nat>, n: nat)
    requires IsChain(g, t, ch) && g.IsCluster(n) && n < |t| && t[n] == 0 && g.clusters + 2 <= g.Eof()
    ensures ch != [] ==> ch[|ch| - 1] < |t|
    ensures Free(Linked(g, t, ch, n)) == Free(t) - 1
  {
    FreeNotIn(g, t, ch, n);
    NonZeroSet(t, n, g.Eof());
    if ch != [] {
      assert LinkAt(g, t, ch, |ch| - 1);
      NonZeroSet(t[n := g.Eof()], ch[|ch| - 1], n);
    }
  }

  /** The entry of file `k` is gone, and the clusters of its chain are free: no other file, directory
      or FAT entry changes. */
  ghost predicate Unlinked(g: Geo, v: Vol, cs: seq<seq<nat>>, k: nat, d: DirRef, n: Name, v1: Vol, v': Vol)
  {
    k < |cs| && EntryGone(g, v, d, n, v1) && v' == Vol(Cleared(v.t, cs[k]), v1.data, v1.root) &&
      ChainsOk(g, v'.t, cs[k := []])
  }

  /** fat_unlink_path on a file, in its resolved directory. */
  method UnlinkFile(vol: Volume, key: nat, n: Name, ghost d: DirRef, ghost cs: seq<seq<nat>>,
      ghost k: nat)
    returns (found: bool, ghost v1: Vol)
    requires vol.Valid() && IsDirRef(vol.g, vol.v, d) && Names(vol.g, key, d) && DirOk(DirSecs(vol.v, d))
    requires ChainsOk(vol.g, vol.v.t, cs) && k < |cs|
    requires Ask(vol.g, vol.v, d, n).Some? ==> StartsAt(cs[k], Ask(vol.g, vol.v, d, n).value.clus)
    modifies vol, vol.disk
    ensures vol.Valid() && (found <==> Ask(vol.g, old(vol.v), d, n).Some?)
    ensures !found ==> vol.v == old(vol.v)
    ensures found ==>
            Unlinked(vol.g, old(vol.v), cs, k, d, n, v1, vol.v) && Free(vol.v.t) == Free(old(vol.v).t) + |cs[k]|
  {
    hide Rep, DirOk, DirSecs, Look, EntryGone, IsDirRef;
    SpcPositive(vol);
    var c;
    found, c := DeleteEntry(vol, key, n, d);
    v1 := vol.v;
    if !found { return; }
    assert vol.v.t == old(vol.v).t by { GoneFat(vol.g, old(vol.v), d, n, v1); }
    assert IsChain(vol.g, vol.v.t, cs[k]);
    ClearedOk(vol.g, vol.v.t, cs, k);
    ClearedCount(vol.g, vol.v.t, cs[k]);
    if c >= 2 {
      assert LinkAt(vol.g, vol.v.t, cs[k], 0);
      FreedIsCleared(vol.g, vol.v.t, cs[k]);
      ChainStaysIn(vol.g, vol.v.t, cs[k]);
      FreeChain(vol, c);
    } else {
      NoneCleared(vol.v.t);
    }
  }

  predicate StartsAt(ch: seq<nat>, c: nat)
  {
    if ch == [] then c < 2 else ch[0] == c && c >= 2
  }

  lemma NoneCleared(t: seq<nat>)
    ensures Cleared(t, []) == t
  {
  }

  lemma GoneFat(g: Geo, v: Vol, d: DirRef, n: Name, v1: Vol)
    requires EntryGone(g, v, d, n, v1)
    ensures v1.t == v.t
  {
  }

  // ----- create -----

  /** A cluster of its own is a chain beside all others. */
  lemma NewChainOk(g: Geo, t: seq<nat>, cs: seq<seq<nat>>, c: nat)
    requires ChainsOk(g, t, cs) && g.IsCluster(c) && c < |t| && t[c] == 0 && g.clusters + 2 <= g.Eof()
    ensures ChainsOk(g, t[c := g.Eof()], cs + [[c]])
  {
    var cs0 := cs + [[]];
    forall k: nat | k < |cs0|
      ensures IsChain(g, t, cs0[k])
    {
      if k < |cs| { assert IsChain(g, t, cs[k]); }
    }
    forall j: nat, a: nat, k: nat, b: nat
      ensures Apart(cs0, j, a, k, b)
    {
      assert Apart(cs, j, a, k, b);
    }
    ExtendOk(g, t, cs0, |cs|, c);
    assert cs0[|cs|] + [c] == [c];
    assert cs0[|cs| := [c]] == cs + [[c]];
  }

  predicate FreeAt(g: Geo, v: Vol, c: nat)
  {
    g.IsCluster(c) && c < |v.t| && v.t[c] == 0
  }

  /** There is a cluster for a new file, but no slot in `d` for its entry, and `d` cannot grow: it is the fixed
      root, or that cluster is the only free one. */
  ghost predicate Wasteful(g: Geo, v: Vol, d: DirRef)
  {
    && !NoneFree(g, v) && Taken(DirSecs(v, d), 16 * |DirSecs(v, d)|)
    && (d.Fixed? || forall a: nat, b: nat :: FreeAt(g, v, a) && FreeAt(g, v, b) ==> a == b)
  }

  lemma WastefulIs(g: Geo, v: Vol, c: nat, v1: Vol, d: DirRef)
    requires Sized(g, v) && IsDirRef(g, v, d) && NewCluster(g, v, c, v1) && g.clusters + 2 <= g.Eof()
    ensures NoRoom(g, v1, d) <==> Wasteful(g, v, d)
  {
    FreshRoot(g, v, c, v1, d);
    hide DirSecs, Taken, Look, IsDirRef;
    assert FreeAt(g, v, c) && v1.t == v.t[c := g.Eof()];
    if d.Chain? && NoRoom(g, v1, d) {
      forall a: nat | FreeAt(g, v, a)
        ensures a == c
      {
        assert v1.t[a] != 0;
      }
    }
    if d.Chain? && Wasteful(g, v, d) {
      forall e: nat | g.IsCluster(e) && e < |v1.t|
        ensures v1.t[e] != 0
      {
        assert FreeAt(g, v, e) ==> e == c;
      }
    }
  }

  /** fat_create_root for a file: a fresh zeroed cluster and an entry of size 0 that names it, with the
      time stamps of `now`. A name that is there is refused. The cluster stays allocated, with nothing to
      name it, exactly if the directory cannot take the entry. */
  method CreateFile(vol: Volume, n: Name, now: Meta, ghost d: DirRef, ghost cs: seq<seq<nat>>)
    returns (ok: bool, c: nat, ghost v1: Vol, ghost v2: Vol, ghost d': DirRef)
    requires vol.Valid() && ChainsOk(vol.g, vol.v.t, cs) && IsDirRef(vol.g, vol.v, d) && DirOk(DirSecs(vol.v, d)) &&
             Plain(n)
    requires KeyOf(d) == (if vol.g.fat32 then vol.g.rootClus else 0) && now.Fits(vol.g.fat32)
    modifies vol, vol.disk
    ensures vol.Valid()
    ensures Ask(vol.g, old(vol.v), d, n).Some? ==> !ok && vol.v == old(vol.v)
    ensures Ask(vol.g, old(vol.v), d, n).None? ==>
            && (ok <==> !NoneFree(vol.g, old(vol.v)) && !Wasteful(vol.g, old(vol.v), d))
            && (!ok && c == 0 <==> NoneFree(vol.g, old(vol.v)))
            && (!ok && c != 0 <==> Wasteful(vol.g, old(vol.v), d))
    ensures !ok && c == 0 ==> vol.v == old(vol.v)
    ensures !ok && c != 0 ==>
            && NewCluster(vol.g, old(vol.v), c, vol.v) && ChainsOk(vol.g, vol.v.t, cs + [[c]])
            && forall x :: Ask(vol.g, vol.v, d, x) == Ask(vol.g, old(vol.v), d, x)
    ensures ok ==>
            NewCluster(vol.g, old(vol.v), c, v1) && ChainsOk(vol.g, v1.t, cs + [[c]]) && Room(vol.g, v1, d, v2, d')
    ensures ok ==> EntrySet(vol.g, v2, d', n, now.(attr := 0x20, clus := c, size := 0), vol.v)
    ensures ok ==> ChainsGrown(vol.g, vol.v.t, cs + [[c]], d, d')
  {
    hide Rep, DirOk, DirSecs, Look, EntrySet, RefsApart, Room, HasEnt, Slot, CurAt, Taken, SlotWritten, Encode,
         NoRoom, IsDirRef, ChainsGrown, ChainsOk;
    SpcPositive(vol);
    SizedIs(vol.g, vol.disk[..], vol.v);
    ghost var v0 := vol.v;
    v1, v2, d', c := v0, v0, d, 0;
    var key := if vol.g.fat32 then vol.g.rootClus else 0;
    var cur, j;
    ghost var i, p;
    ok, cur, j, i, p := FindEntry(vol, key, n, true, d);
    if ok {
      LookIs(DirSecs(v0, d), n, vol.g.fat32, 16 * p + j);
      return false, 0, v1, v2, d';
    }
    AbsentIs(vol.g, v0, d, n);
    c := AllocCluster(vol);
    if c == 0 { return false, 0, v1, v2, d'; }
    v1 := vol.v;
    NewChainOk(vol.g, v0.t, cs, c);
    FreshRoot(vol.g, v0, c, v1, d);
    WastefulIs(vol.g, v0, c, v1, d);
    assert FreeAt(vol.g, v0, c) && !NoneFree(vol.g, v0);
    hide Wasteful, NoneFree;
    ok, cur, j, d', i, p := FindSlot(vol, key, d);
    v2 := vol.v;
    if !ok { return; }
    RoomLook(vol.g, v1, d, v2, d');
    RoomChains(vol.g, v1, d, v2, d', cs + [[c]]);
    WriteSlot(vol, cur, j, Encode(n, now.(attr := 0x20, clus := c, size := 0)), d', i, p);
    AddedIs(vol.g, v2, d', n, now.(attr := 0x20, clus := c, size := 0), p, j, vol.v);
    SetFat(vol.g, v2, d', n, now.(attr := 0x20, clus := c, size := 0), vol.v);
  }

  /** The chains `cs` are in order, with that of the directory `d`, if it is one of them, now that of `d'`. */
  ghost predicate ChainsGrown(g: Geo, t: seq<nat>, cs: seq<seq<nat>>, d: DirRef, d': DirRef)
  {
    match d
    case Fixed => d' == d && ChainsOk(g, t, cs)
    case Chain(ch) =>
      && d'.Chain? && ch <= d'.ch
      && forall r: nat :: r < |cs| && cs[r] == ch ==> ChainsOk(g, t, cs[r := d'.ch])
  }

  /** A directory that grew for a slot is a longer chain beside all others. */
  lemma RoomChains(g: Geo, v: Vol, d: DirRef, v': Vol, d': DirRef, cs: seq<seq<nat>>)
    requires ChainsOk(g, v.t, cs) && Room(g, v, d, v', d') && g.clusters + 2 <= g.Eof()
    ensures ChainsGrown(g, v'.t, cs, d, d')
  {
    if d.Chain? {
      forall r: nat | r < |cs| && cs[r] == d.ch
        ensures ChainsOk(g, v'.t, cs[r := d'.ch])
      {
        if d' == d && v' == v {
          assert cs[r := d.ch] == cs;
        } else {
          var c: nat :| Grew(g, v, d.ch, c, v') && d' == Chain(d.ch + [c]);
          ExtendOk(g, v.t, cs, r, c);
        }
      }
    }
  }

  lemma SetFat(g: Geo, v: Vol, d: DirRef, n: Name, m: Meta, v': Vol)
    requires EntrySet(g, v, d, n, m, v')
    ensures v'.t == v.t
  {
  }

  lemma AbsentIs(g: Geo, v: Vol, d: DirRef, n: Name)
    requires forall k: nat :: !HasEnt(DirSecs(v, d), n, k)
    ensures Ask(g, v, d, n) == None
  {
  }

  /** Allocating a cluster does not touch the root directory. */
  lemma FreshRoot(g: Geo, v: Vol, c: nat, v1: Vol, d: DirRef)
    requires Sized(g, v) && IsDirRef(g, v, d) && NewCluster(g, v, c, v1)
    ensures Sized(g, v1) && IsDirRef(g, v1, d) && DirSecs(v1, d) == DirSecs(v, d) &&
            forall x :: Ask(g, v1, d, x) == Ask(g, v, d, x)
  {
    if d.Chain? {
      FreeNotIn(g, v.t, d.ch, c);
      ChainFrame(g, v.t, d.ch, c, g.Eof());
      ChainInData(g, v, d.ch);
      SecsFrame(v.data, v1.data, d.ch);
    }
    hide Look;
  }
}
