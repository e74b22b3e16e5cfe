/** The directory tree: parent links, the ancestor check and path look-up, and what a move between
    directories does to them (fat_dir_has_ancestor, fat_resolve and fat_rename_path in
    kernel/fs/fat.c). */
module FatTree {
  import opened Tiny
  import opened FatDisk
  import opened FatChain
  import opened FatFile
  import opened FatDir
  import opened FatEdit
  import opened FatRename

  /** The directories of a volume by their numbers, with each one's parent and a depth. */
  datatype Tree = Tree(root: nat, dirs: map<nat, DirRef>, parent: map<nat, nat>, depth: map<nat, nat>)

  /** The name ".", padded. */
  function Dot(): Name
  {
    [46] + seq(10, _ => 32)
  }

  predicate Proper(n: Name)
  {
    n != Dot() && n != DotDot()
  }

  ghost function AskAt(g: Geo, v: Vol, t: Tree, k: nat, n: Name): Option<Meta>
  {
    if k in t.dirs then Ask(g, v, t.dirs[k], n) else None
  }

  /** Directory `k` is a chain or the fixed root; one that is not the root names its parent, which is
      less deep, in its second entry, as 0 or by its number if that is the root of FAT32. */
  ghost predicate Node(g: Geo, v: Vol, t: Tree, k: nat)
  {
    k in t.dirs ==>
      && IsDirRef(g, v, t.dirs[k]) && KeyOf(t.dirs[k]) == k && DirOk(DirSecs(v, t.dirs[k])) && k in t.depth
      && (k != t.root ==> Hangs(g, v, t, k))
  }

  ghost predicate Hangs(g: Geo, v: Vol, t: Tree, k: nat)
    requires k in t.dirs
  {
    && t.dirs[k].Chain? && HasEnt(DirSecs(v, t.dirs[k]), DotDot(), 1)
    && k in t.parent && t.parent[k] in t.dirs && Ask(g, v, t.dirs[k], DotDot()).Some?
    && Leads(g, t, t.parent[k], Ask(g, v, t.dirs[k], DotDot()).value.clus)
    && k in t.depth && t.parent[k] in t.depth && t.depth[t.parent[k]] < t.depth[k]
  }

  /** A ".." that says `c` leads to directory `p`: 0 stands for the root, on FAT32 as well. */
  predicate Leads(g: Geo, t: Tree, p: nat, c: nat)
  {
    c == p || (g.fat32 && p == t.root && c == 0)
  }

  /** An entry that names a directory is in that directory's parent. */
  ghost predicate Edge(g: Geo, v: Vol, t: Tree, k: nat, n: Name)
  {
    var m := AskAt(g, v, t, k, n);
    Proper(n) && m.Some? && m.value.IsDir() ==>
      m.value.clus in t.dirs && m.value.clus != t.root && m.value.clus in t.parent && t.parent[m.value.clus] == k
  }

  /** No directory has two names. */
  ghost predicate OneName(g: Geo, v: Vol, t: Tree, k: nat, x: Name, y: Name)
  {
    var a, b := AskAt(g, v, t, k, x), AskAt(g, v, t, k, y);
    Proper(x) && Proper(y) && a.Some? && b.Some? && a.value.IsDir() && b.value.IsDir() ==>
      (a.value.clus == b.value.clus ==> x == y)
  }

  ghost predicate Separate(t: Tree, k: nat, l: nat)
  {
    k in t.dirs && l in t.dirs && k != l ==> RefsApart(t.dirs[k], t.dirs[l])
  }

  ghost predicate TreeOk(g: Geo, v: Vol, t: Tree)
  {
    && Sized(g, v) && t.root in t.dirs && t.root == (if g.fat32 then g.rootClus else 0)
    && (forall k: nat {:trigger Node(g, v, t, k)} :: Node(g, v, t, k))
    && (forall k: nat, n: Name {:trigger Edge(g, v, t, k, n)} :: Edge(g, v, t, k, n))
    && (forall k: nat, x: Name, y: Name {:trigger OneName(g, v, t, k, x, y)} :: OneName(g, v, t, k, x, y))
    && (forall k: nat, l: nat {:trigger Separate(t, k, l)} :: Separate(t, k, l))
  }

  // ----- ancestors -----

  predicate Ranked(t: Tree, k: nat)
  {
    k in t.dirs && k != t.root ==>
      k in t.parent && t.parent[k] in t.dirs && k in t.depth && t.parent[k] in t.depth &&
        t.depth[t.parent[k]] < t.depth[k]
  }

  ghost predicate Ranks(t: Tree)
  {
    t.root in t.dirs && forall k: nat {:trigger Ranked(t, k)} :: Ranked(t, k)
  }

  /** `a` is a proper ancestor of `c`. */
  ghost predicate Above(t: Tree, c: nat, a: nat)
    decreases if c in t.depth then t.depth[c] else 0
  {
    c in t.dirs && c != t.root && Ranked(t, c) && (t.parent[c] == a || Above(t, t.parent[c], a))
  }

  lemma RanksOk(g: Geo, v: Vol, t: Tree)
    requires TreeOk(g, v, t)
    ensures Ranks(t)
  {
    forall k: nat
      ensures Ranked(t, k)
    {
      assert Node(g, v, t, k);
    }
  }

  lemma {:induction false} AboveTrans(t: Tree, c: nat, b: nat, a: nat)
    requires Above(t, c, b) && Above(t, b, a)
    ensures Above(t, c, a)
    decreases if c in t.depth then t.depth[c] else 0
  {
    if t.parent[c] != b { AboveTrans(t, t.parent[c], b, a); }
  }

  lemma {:induction false} AboveDepth(t: Tree, c: nat, a: nat)
    requires Above(t, c, a)
    ensures c in t.depth && a in t.depth && t.depth[a] < t.depth[c]
    decreases if c in t.depth then t.depth[c] else 0
  {
    if t.parent[c] != a { AboveDepth(t, t.parent[c], a); }
  }

  // ----- a directory hung elsewhere -----

  /** `m` or a directory below it. */
  ghost predicate InSub(t: Tree, c: nat, m: nat)
  {
    c == m || Above(t, c, m)
  }

  /** Depths that fit after `m` was hung below `p`. */
  ghost function NewDepth(t: Tree, m: nat, p: nat): map<nat, nat>
    requires p in t.depth
  {
    map k | k in t.depth :: if InSub(t, k, m) then t.depth[k] + t.depth[p] + 1 else t.depth[k]
  }

  /** Hanging `m` below a directory that is not in its own subtree keeps the tree a tree. */
  lemma MoveRanks(t: Tree, m: nat, p: nat, dirs: map<nat, DirRef>)
    requires Ranks(t) && m in t.dirs && m != t.root && p in t.dirs && p in t.depth && !InSub(t, p, m) &&
             dirs.Keys == t.dirs.Keys
    ensures Ranks(Tree(t.root, dirs, t.parent[m := p], NewDepth(t, m, p)))
  {
    var t' := Tree(t.root, dirs, t.parent[m := p], NewDepth(t, m, p));
    forall k: nat
      ensures Ranked(t', k)
    {
      assert Ranked(t, k);
      if k in t.dirs && k != t.root && k != m {
        assert InSub(t, k, m) <==> InSub(t, t.parent[k], m);
      }
    }
  }

  // ----- paths -----

  /** The directory a path of directory names leads to. */
  ghost function Walk(g: Geo, v: Vol, t: Tree, k: nat, path: seq<Name>): Option<nat>
    decreases |path|
  {
    if path == [] then (if k in t.dirs then Some(k) else None) else
    var m := AskAt(g, v, t, k, path[0]);
    if m.Some? && m.value.IsDir() then Walk(g, v, t, m.value.clus, path[1..]) else None
  }

  /** fat_resolve: all names but the last must be directories. */
  ghost function Resolve(g: Geo, v: Vol, t: Tree, path: seq<Name>): Option<Meta>
  {
    if path == [] then None else
    var k := Walk(g, v, t, t.root, path[..|path| - 1]);
    if k.Some? then AskAt(g, v, t, k.value, path[|path| - 1]) else None
  }

  ghost predicate AllProper(path: seq<Name>)
  {
    forall i :: 0 <= i < |path| ==> Proper(path[i])
  }

  /** A path leads down. */
  lemma {:induction false} WalkBelow(g: Geo, v: Vol, t: Tree, k: nat, path: seq<Name>)
    requires TreeOk(g, v, t) && AllProper(path) && Walk(g, v, t, k, path).Some?
    ensures InSub(t, Walk(g, v, t, k, path).value, k) && Walk(g, v, t, k, path).value in t.dirs
    decreases |path|
  {
    if path != [] {
      var c := AskAt(g, v, t, k, path[0]).value.clus;
      var to := Walk(g, v, t, k, path).value;
      assert Edge(g, v, t, k, path[0]);
      WalkBelow(g, v, t, c, path[1..]);
      RanksOk(g, v, t);
      assert Ranked(t, c) && Above(t, c, k);
      if to != c { AboveTrans(t, to, c, k); }
    }
  }

  // ----- the tree after a move -----

  /** Entry `n1` of directory `k1` is to be `n2` of another directory `k2`; a directory does not move
      into itself or below. */
  ghost predicate MayMove(g: Geo, v: Vol, t: Tree, k1: nat, n1: Name, k2: nat, n2: Name)
  {
    var m := AskAt(g, v, t, k1, n1);
    && TreeOk(g, v, t) && k1 in t.dirs && k2 in t.dirs && k1 != k2 && Proper(n1) && Proper(n2) && Plain(n2)
    && m.Some? && AskAt(g, v, t, k2, n2) == None && (m.value.IsDir() ==> !InSub(t, k2, m.value.clus))
  }

  /** The directory that moves, if one does. */
  ghost function MovedRef(g: Geo, v: Vol, t: Tree, k1: nat, n1: Name): DirRef
  {
    var m := AskAt(g, v, t, k1, n1);
    if m.Some? && m.value.clus in t.dirs then t.dirs[m.value.clus] else Fixed
  }

  ghost function TreeAfter(g: Geo, v: Vol, t: Tree, k1: nat, n1: Name, k2: nat, d2: DirRef): Tree
  {
    var m := AskAt(g, v, t, k1, n1);
    if m.Some? && m.value.IsDir() && k2 in t.depth
    then Tree(t.root, t.dirs[k2 := d2], t.parent[m.value.clus := k2], NewDepth(t, m.value.clus, k2))
    else Tree(t.root, t.dirs[k2 := d2], t.parent, t.depth)
  }

  /** The moved directory is a child of `k1`, and not `k1`, `k2` or the root. */
  lemma MovedFacts(g: Geo, v: Vol, t: Tree, k1: nat, n1: Name, k2: nat, n2: Name)
    requires MayMove(g, v, t, k1, n1, k2, n2) && AskAt(g, v, t, k1, n1).value.IsDir()
    ensures var c := AskAt(g, v, t, k1, n1).value.clus;
            && c in t.dirs && c != t.root && c != k1 && c != k2 && c in t.parent && t.parent[c] == k1 && k2 in t.depth
            && MovedRef(g, v, t, k1, n1) == t.dirs[c]
  {
    assert Edge(g, v, t, k1, n1);
    var c := AskAt(g, v, t, k1, n1).value.clus;
    assert Node(g, v, t, c) && Node(g, v, t, k2);
  }

  lemma MayMoveIs(g: Geo, v: Vol, t: Tree, k1: nat, n1: Name, k2: nat, n2: Name)
    requires MayMove(g, v, t, k1, n1, k2, n2)
    ensures Movable(g, v, t.dirs[k1], n1, t.dirs[k2], n2, MovedRef(g, v, t, k1, n1)) && KeyOf(t.dirs[k1]) == k1 &&
            KeyOf(t.dirs[k2]) == k2
  {
    hide Look, DirSecs, DirOk, IsDirRef, RefsApart, HasEnt, DotDot, Dot, InSub;
    assert Node(g, v, t, k1) && Node(g, v, t, k2) && Separate(t, k1, k2);
    if AskAt(g, v, t, k1, n1).value.IsDir() {
      MovedFacts(g, v, t, k1, n1, k2, n2);
      var c := AskAt(g, v, t, k1, n1).value.clus;
      assert Node(g, v, t, c) && Separate(t, c, k1) && Separate(t, c, k2);
    }
  }

  /** What every directory says after the move. */
  ghost predicate AskMoved(g: Geo, v: Vol, t: Tree, k1: nat, n1: Name, k2: nat, n2: Name, v': Vol, t': Tree, k: nat,
      n: Name)
  {
    var m := AskAt(g, v, t, k1, n1);
    AskAt(g, v', t', k, n) ==
      if k == k1 && n == n1 then None
      else if k == k2 && n == n2 then m
      else if m.Some? && m.value.IsDir() && k == m.value.clus && n == DotDot() && AskAt(g, v, t, k, n).Some?
      then Some(AskAt(g, v, t, k, n).value.(clus := k2))
      else AskAt(g, v, t, k, n)
  }

  ghost predicate MoveDone(g: Geo, v: Vol, t: Tree, k1: nat, n1: Name, k2: nat, n2: Name, v': Vol, d2: DirRef)
  {
    && MayMove(g, v, t, k1, n1, k2, n2)
    && Moved(g, v, t.dirs[k1], n1, t.dirs[k2], n2, MovedRef(g, v, t, k1, n1), v', d2)
  }

  /** A directory that is not involved is as it was. */
  lemma OtherSame(g: Geo, v: Vol, t: Tree, k1: nat, n1: Name, k2: nat, n2: Name, v': Vol, d2: DirRef, k: nat)
    requires MoveDone(g, v, t, k1, n1, k2, n2, v', d2) && k in t.dirs && k != k1 && k != k2
    requires AskAt(g, v, t, k1, n1).value.IsDir() ==> k != AskAt(g, v, t, k1, n1).value.clus
    ensures DirSecs(v', t.dirs[k]) == DirSecs(v, t.dirs[k])
  {
    hide Look, DirSecs, DirOk, RefsApart, HasEnt, DotDot, Dot, InSub, IsDirRef;
    assert Node(g, v, t, k) && Separate(t, k1, k) && Separate(t, k2, k);
    if AskAt(g, v, t, k1, n1).value.IsDir() {
      MovedFacts(g, v, t, k1, n1, k2, n2);
      assert Separate(t, AskAt(g, v, t, k1, n1).value.clus, k);
    }
  }

  lemma AskIs(g: Geo, v: Vol, t: Tree, k1: nat, n1: Name, k2: nat, n2: Name, v': Vol, d2: DirRef, k: nat, n: Name)
    requires MoveDone(g, v, t, k1, n1, k2, n2, v', d2)
    ensures AskMoved(g, v, t, k1, n1, k2, n2, v', TreeAfter(g, v, t, k1, n1, k2, d2), k, n)
  {
    hide Look, DirSecs, DirOk, RefsApart, HasEnt, DotDot, Dot, InSub, IsDirRef, TreeOk, NewDepth;
    if AskAt(g, v, t, k1, n1).value.IsDir() { MovedFacts(g, v, t, k1, n1, k2, n2); }
    if k in t.dirs && k != k1 && k != k2 &&
      (AskAt(g, v, t, k1, n1).value.IsDir() ==> k != AskAt(g, v, t, k1, n1).value.clus) {
      OtherSame(g, v, t, k1, n1, k2, n2, v', d2, k);
    }
    MayMoveIs(g, v, t, k1, n1, k2, n2);
  }

  lemma NodeAfter(g: Geo, v: Vol, t: Tree, k1: nat, n1: Name, k2: nat, n2: Name, v': Vol, d2: DirRef, k: nat)
    requires MoveDone(g, v, t, k1, n1, k2, n2, v', d2) && k in t.dirs
    ensures var t' := TreeAfter(g, v, t, k1, n1, k2, d2);
            IsDirRef(g, v', t'.dirs[k]) && KeyOf(t'.dirs[k]) == k && DirOk(DirSecs(v', t'.dirs[k])) && k in t'.depth
            && DotsKept(v, t.dirs[k], v', t'.dirs[k])
  {
    hide Look, DirSecs, DirOk, RefsApart, HasEnt, DotDot, Dot, InSub, IsDirRef, KeyOf;
    MayMoveIs(g, v, t, k1, n1, k2, n2);
    assert Node(g, v, t, k) && Separate(t, k2, k);
    if AskAt(g, v, t, k1, n1).value.IsDir() { MovedFacts(g, v, t, k1, n1, k2, n2); }
    if k != k1 && k != k2 && (AskAt(g, v, t, k1, n1).value.IsDir() ==> k != AskAt(g, v, t, k1, n1).value.clus) {
      OtherSame(g, v, t, k1, n1, k2, n2, v', d2, k);
    }
  }

  lemma RanksAfter(g: Geo, v: Vol, t: Tree, k1: nat, n1: Name, k2: nat, n2: Name, d2: DirRef)
    requires MayMove(g, v, t, k1, n1, k2, n2)
    ensures Ranks(TreeAfter(g, v, t, k1, n1, k2, d2))
  {
    hide Look, DirSecs, DirOk, RefsApart, HasEnt, DotDot, Dot, IsDirRef, KeyOf, TreeOk, NewDepth, InSub;
    RanksOk(g, v, t);
    var t' := TreeAfter(g, v, t, k1, n1, k2, d2);
    if AskAt(g, v, t, k1, n1).value.IsDir() {
      MovedFacts(g, v, t, k1, n1, k2, n2);
      MoveRanks(t, AskAt(g, v, t, k1, n1).value.clus, k2, t.dirs[k2 := d2]);
    } else {
      forall k: nat
        ensures Ranked(t', k)
      {
        assert Ranked(t, k);
      }
    }
  }

  lemma HangsAfter(g: Geo, v: Vol, t: Tree, k1: nat, n1: Name, k2: nat, n2: Name, v': Vol, d2: DirRef, k: nat)
    requires MoveDone(g, v, t, k1, n1, k2, n2, v', d2) && k in t.dirs && k != t.root
    ensures Hangs(g, v', TreeAfter(g, v, t, k1, n1, k2, d2), k)
  {
    hide Look, DirSecs, DirOk, RefsApart, HasEnt, DotDot, Dot, InSub, IsDirRef, KeyOf, NewDepth, Ask;
    var t' := TreeAfter(g, v, t, k1, n1, k2, d2);
    assert Node(g, v, t, k);
    NodeAfter(g, v, t, k1, n1, k2, n2, v', d2, k);
    AskIs(g, v, t, k1, n1, k2, n2, v', d2, k, DotDot());
    RanksAfter(g, v, t, k1, n1, k2, n2, d2);
    assert Ranked(t', k);
    ChainStays(g, v, t, k1, n1, k2, n2, v', d2, k);
    if AskAt(g, v, t, k1, n1).value.IsDir() { MovedFacts(g, v, t, k1, n1, k2, n2); }
  }

  lemma ChainStays(g: Geo, v: Vol, t: Tree, k1: nat, n1: Name, k2: nat, n2: Name, v': Vol, d2: DirRef, k: nat)
    requires MoveDone(g, v, t, k1, n1, k2, n2, v', d2) && k in t.dirs && k != t.root
    ensures TreeAfter(g, v, t, k1, n1, k2, d2).dirs[k].Chain?
  {
    assert Node(g, v, t, k);
    if k == k2 { MayMoveIs(g, v, t, k1, n1, k2, n2); assert LinkAt(g, v.t, t.dirs[k].ch, 0); }
  }

  lemma EdgeAfter(g: Geo, v: Vol, t: Tree, k1: nat, n1: Name, k2: nat, n2: Name, v': Vol, d2: DirRef, k: nat, n: Name)
    requires MoveDone(g, v, t, k1, n1, k2, n2, v', d2)
    ensures Edge(g, v', TreeAfter(g, v, t, k1, n1, k2, d2), k, n)
  {
    hide Look, DirSecs, DirOk, RefsApart, HasEnt, DotDot, Dot, InSub, IsDirRef, KeyOf, NewDepth, Ask, AskAt;
    AskIs(g, v, t, k1, n1, k2, n2, v', d2, k, n);
    assert Edge(g, v, t, k, n) && Edge(g, v, t, k1, n1) && OneName(g, v, t, k1, n, n1);
    if AskAt(g, v, t, k1, n1).value.IsDir() { MovedFacts(g, v, t, k1, n1, k2, n2); }
  }

  lemma OneNameAfter(g: Geo, v: Vol, t: Tree, k1: nat, n1: Name, k2: nat, n2: Name, v': Vol, d2: DirRef, k: nat,
      x: Name, y: Name)
    requires MoveDone(g, v, t, k1, n1, k2, n2, v', d2)
    ensures OneName(g, v', TreeAfter(g, v, t, k1, n1, k2, d2), k, x, y)
  {
    hide Look, DirSecs, DirOk, RefsApart, HasEnt, DotDot, Dot, InSub, IsDirRef, KeyOf, NewDepth, Ask, AskAt;
    AskIs(g, v, t, k1, n1, k2, n2, v', d2, k, x);
    AskIs(g, v, t, k1, n1, k2, n2, v', d2, k, y);
    assert OneName(g, v, t, k, x, y) && Edge(g, v, t, k, x) && Edge(g, v, t, k, y) && Edge(g, v, t, k1, n1);
  }

  /** A move between directories keeps the directory graph a tree, with every ".." right. */
  lemma MoveKeepsTree(g: Geo, v: Vol, t: Tree, k1: nat, n1: Name, k2: nat, n2: Name, v': Vol, d2: DirRef)
    requires MoveDone(g, v, t, k1, n1, k2, n2, v', d2)
    ensures TreeOk(g, v', TreeAfter(g, v, t, k1, n1, k2, d2))
  {
    hide Look, DirSecs, DirOk, RefsApart, HasEnt, DotDot, Dot, InSub, IsDirRef, KeyOf, NewDepth, Ask, AskAt, Hangs,
         Edge, OneName, Moved;
    var t' := TreeAfter(g, v, t, k1, n1, k2, d2);
    SizedAfter(g, v, t, k1, n1, k2, n2, v', d2);
    forall k: nat
      ensures Node(g, v', t', k)
    {
      if k in t.dirs {
        NodeAfter(g, v, t, k1, n1, k2, n2, v', d2, k);
        if k != t.root { HangsAfter(g, v, t, k1, n1, k2, n2, v', d2, k); }
      }
    }
    forall k: nat, n: Name
      ensures Edge(g, v', t', k, n)
    {
      EdgeAfter(g, v, t, k1, n1, k2, n2, v', d2, k, n);
    }
    forall k: nat, x: Name, y: Name
      ensures OneName(g, v', t', k, x, y)
    {
      OneNameAfter(g, v, t, k1, n1, k2, n2, v', d2, k, x, y);
    }
    forall k: nat, l: nat
      ensures Separate(t', k, l)
    {
      SeparateAfter(g, v, t, k1, n1, k2, n2, v', d2, k, l);
    }
  }

  lemma SizedAfter(g: Geo, v: Vol, t: Tree, k1: nat, n1: Name, k2: nat, n2: Name, v': Vol, d2: DirRef)
    requires MoveDone(g, v, t, k1, n1, k2, n2, v', d2)
    ensures Sized(g, v')
  {
  }

  lemma SeparateAfter(g: Geo, v: Vol, t: Tree, k1: nat, n1: Name, k2: nat, n2: Name, v': Vol, d2: DirRef, k: nat,
      l: nat)
    requires MoveDone(g, v, t, k1, n1, k2, n2, v', d2)
    ensures Separate(TreeAfter(g, v, t, k1, n1, k2, d2), k, l)
  {
    hide Look, DirSecs, DirOk, RefsApart, HasEnt, DotDot, Dot, InSub, IsDirRef, KeyOf, NewDepth, Ask, AskAt;
    assert Separate(t, k, l) && Separate(t, k2, k) && Separate(t, k2, l) && Node(g, v, t, k) && Node(g, v, t, l);
    if k in t.dirs { ApartSym(d2, t.dirs[k]); }
  }

  lemma SourceOutside(g: Geo, v: Vol, t: Tree, k1: nat, n1: Name, k2: nat, n2: Name)
    requires MayMove(g, v, t, k1, n1, k2, n2) && AskAt(g, v, t, k1, n1).value.IsDir()
    ensures !InSub(t, k1, AskAt(g, v, t, k1, n1).value.clus)
  {
    MovedFacts(g, v, t, k1, n1, k2, n2);
    RanksOk(g, v, t);
    var c := AskAt(g, v, t, k1, n1).value.clus;
    assert Ranked(t, c);
    hide TreeOk, Look;
    if Above(t, k1, c) { AboveDepth(t, k1, c); }
  }

  // ----- the ancestor check -----

  /** The root of FAT32 has no ".." of its own, or one that leads nowhere else. */
  ghost predicate RootPlain(g: Geo, v: Vol, t: Tree)
  {
    g.fat32 && t.root in t.dirs && 1 < 16 * |DirSecs(v, t.dirs[t.root])| ==>
      var e := Slot(DirSecs(v, t.dirs[t.root]), 1);
      !(e[0] == 46 && e[1] == 46) || ClusOf(e, true) == 0 || ClusOf(e, true) == t.root
  }

  /** What the second entry of directory `c` says. */
  lemma DotsSay(g: Geo, v: Vol, t: Tree, c: nat)
    requires TreeOk(g, v, t) && RootPlain(g, v, t) && c in t.dirs && c >= 2 && g.clusters + 2 <= g.Eof() && g.spc > 0
    ensures t.dirs[c].Chain? && IsDirRef(g, v, t.dirs[c]) && KeyOf(t.dirs[c]) == c && 0 < |DirSecs(v, t.dirs[c])| &&
            c in t.depth
    ensures var e := Slot(DirSecs(v, t.dirs[c]), 1); var dots := e[0] == 46 && e[1] == 46;
            && (c != t.root ==> dots && Ranked(t, c) && c in t.parent && Leads(g, t, t.parent[c], ClusOf(e, g.fat32)))
            && (c == t.root ==> g.fat32 && (dots ==> ClusOf(e, g.fat32) == 0 || ClusOf(e, g.fat32) == c))
  {
    assert Node(g, v, t, c);
    if t.dirs[c].Chain? { FirstSector(g, v, t.dirs[c], c); }
    if c != t.root {
      RanksOk(g, v, t);
      assert Ranked(t, c);
      DotsFirst(DirSecs(v, t.dirs[c]), 1);
      LookIs(DirSecs(v, t.dirs[c]), DotDot(), g.fat32, 1);
    }
  }

  /** fat_dir_has_ancestor: the walk along ".." ends, and finds `target` exactly if it is above. */
  method HasAncestor(vol: Volume, start: nat, target: nat, ghost t: Tree) returns (b: bool)
    requires vol.Valid() && TreeOk(vol.g, vol.v, t) && RootPlain(vol.g, vol.v, t) && start in t.dirs &&
             target in t.dirs && target != t.root
    ensures b <==> Above(t, start, target)
  {
    hide Rep, TreeOk, DirSecs, Slot, IsDirRef, RootPlain, KeyOf, CurAt;
    SpcPositive(vol);
    SizedIs(vol.g, vol.disk[..], vol.v);
    TargetIs(vol.g, vol.v, t, target);
    RanksOk(vol.g, vol.v, t);
    RootDepth(vol.g, vol.v, t, start);
    var c := start;
    while c >= 2
      invariant 0 <= c && c in t.dirs && c in t.depth && (Above(t, start, target) <==> Above(t, c, target))
      decreases t.depth[c]
    {
      DotsSay(vol.g, vol.v, t, c);
      FirstSector(vol.g, vol.v, t.dirs[c], c);
      var sec := ReadAt(vol, Cursor(false, c, 0), t.dirs[c], 0, 0);
      SlotHere(DirSecs(vol.v, t.dirs[c]), 0, 1);
      var e := EntIn(sec, 1);
      if !(e[0] == 46 && e[1] == 46) { return false; }
      var parent := ClusOf(e, vol.g.fat32);
      if parent == target { return true; }
      if parent == 0 || parent == c {
        RootTop(vol.g, vol.v, t, parent);
        return false;
      }
      c := parent;
    }
    RootTop(vol.g, vol.v, t, c);
    return false;
  }

  lemma TargetIs(g: Geo, v: Vol, t: Tree, c: nat)
    requires TreeOk(g, v, t) && c in t.dirs && c != t.root
    ensures c >= 2
  {
    assert Node(g, v, t, c);
    assert LinkAt(g, v.t, t.dirs[c].ch, 0);
  }

  lemma RootDepth(g: Geo, v: Vol, t: Tree, c: nat)
    requires TreeOk(g, v, t) && c in t.dirs
    ensures c in t.depth
  {
    assert Node(g, v, t, c);
  }

  /** A directory with a number below 2 is the root. */
  lemma RootTop(g: Geo, v: Vol, t: Tree, c: nat)
    requires TreeOk(g, v, t)
    ensures c in t.dirs && c < 2 ==> c == t.root
  {
    if c in t.dirs && c != t.root { TargetIs(g, v, t, c); }
  }
}
