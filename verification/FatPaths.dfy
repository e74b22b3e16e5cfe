/** What every path of a volume resolves to after a move between directories (fat_rename_path and
    fat_resolve in kernel/fs/fat.c). */
module FatPaths {
  import opened Tiny
  import opened FatDisk
  import opened FatDir
  import opened FatEdit
  import opened FatRename
  import opened FatTree

  // ----- paths, one name at a time -----

  /** The directory that name `n` leads to from `d`. */
  ghost function DirStep(g: Geo, v: Vol, t: Tree, d: Option<nat>, n: Name): Option<nat>
  {
    if d.None? then None else
    var m := AskAt(g, v, t, d.value, n);
    if m.Some? && m.value.IsDir() && m.value.clus in t.dirs then Some(m.value.clus) else None
  }

  lemma {:induction false} WalkCat(g: Geo, v: Vol, t: Tree, k: nat, p: seq<Name>, q: seq<Name>)
    ensures Walk(g, v, t, k, p).None? ==> Walk(g, v, t, k, p + q) == None
    ensures Walk(g, v, t, k, p).Some? ==> Walk(g, v, t, k, p + q) == Walk(g, v, t, Walk(g, v, t, k, p).value, q)
    decreases |p|
  {
    if p == [] {
      assert p + q == q;
      if k !in t.dirs { WalkNone(g, v, t, k, q); }
    } else {
      assert (p + q)[0] == p[0] && (p + q)[1..] == p[1..] + q;
      var m := AskAt(g, v, t, k, p[0]);
      if m.Some? && m.value.IsDir() { WalkCat(g, v, t, m.value.clus, p[1..], q); }
    }
  }

  lemma WalkNone(g: Geo, v: Vol, t: Tree, k: nat, q: seq<Name>)
    requires k !in t.dirs
    ensures Walk(g, v, t, k, q) == None
  {
  }

  lemma WalkOn(g: Geo, v: Vol, t: Tree, p: seq<Name>, q: seq<Name>)
    requires p <= q && Walk(g, v, t, t.root, p).None?
    ensures Walk(g, v, t, t.root, q).None?
  {
    WalkCat(g, v, t, t.root, p, q[|p|..]);
    assert p + q[|p|..] == q;
  }

  lemma WalkSnoc(g: Geo, v: Vol, t: Tree, q: seq<Name>, n: Name)
    ensures Walk(g, v, t, t.root, q + [n]) == DirStep(g, v, t, Walk(g, v, t, t.root, q), n)
  {
    WalkCat(g, v, t, t.root, q, [n]);
    if Walk(g, v, t, t.root, q).Some? { WalkOne(g, v, t, Walk(g, v, t, t.root, q).value, n); }
  }

  lemma WalkOne(g: Geo, v: Vol, t: Tree, k: nat, n: Name)
    ensures Walk(g, v, t, k, [n]) == DirStep(g, v, t, Some(k), n)
  {
    var m := AskAt(g, v, t, k, n);
    assert [n][1..] == [];
    if m.Some? && m.value.IsDir() { assert Walk(g, v, t, k, [n]) == Walk(g, v, t, m.value.clus, []); }
  }

  /** A directory has one path. */
  lemma {:induction false} DirUnique(g: Geo, v: Vol, t: Tree, p: seq<Name>, q: seq<Name>)
    requires TreeOk(g, v, t) && AllProper(p) && AllProper(q)
    requires Walk(g, v, t, t.root, p).Some? && Walk(g, v, t, t.root, p) == Walk(g, v, t, t.root, q)
    ensures p == q
    decreases |p|
  {
    hide TreeOk, Walk, AskAt;
    if p != [] && q != [] {
      var p0, a, q0, b := p[..|p| - 1], p[|p| - 1], q[..|q| - 1], q[|q| - 1];
      assert p == p0 + [a] && q == q0 + [b];
      WalkSnoc(g, v, t, p0, a);
      WalkSnoc(g, v, t, q0, b);
      UpIs(g, v, t, Walk(g, v, t, t.root, p0).value, a);
      UpIs(g, v, t, Walk(g, v, t, t.root, q0).value, b);
      DirUnique(g, v, t, p0, q0);
      SameName(g, v, t, Walk(g, v, t, t.root, p0).value, a, b);
    } else if p != [] {
      NotRoot(g, v, t, p);
      WalkEmpty(g, v, t);
    } else if q != [] {
      NotRoot(g, v, t, q);
      WalkEmpty(g, v, t);
    }
  }

  lemma WalkEmpty(g: Geo, v: Vol, t: Tree)
    requires TreeOk(g, v, t)
    ensures Walk(g, v, t, t.root, []) == Some(t.root)
  {
  }

  lemma UpIs(g: Geo, v: Vol, t: Tree, k: nat, n: Name)
    requires TreeOk(g, v, t) && Proper(n) && DirStep(g, v, t, Some(k), n).Some?
    ensures var c := DirStep(g, v, t, Some(k), n).value; c != t.root && c in t.parent && t.parent[c] == k
  {
    assert Edge(g, v, t, k, n);
  }

  lemma SameName(g: Geo, v: Vol, t: Tree, k: nat, a: Name, b: Name)
    requires TreeOk(g, v, t) && Proper(a) && Proper(b) && DirStep(g, v, t, Some(k), a).Some?
    requires DirStep(g, v, t, Some(k), a) == DirStep(g, v, t, Some(k), b)
    ensures a == b
  {
    assert OneName(g, v, t, k, a, b);
  }

  lemma NotRoot(g: Geo, v: Vol, t: Tree, q: seq<Name>)
    requires TreeOk(g, v, t) && AllProper(q) && q != [] && Walk(g, v, t, t.root, q).Some?
    ensures Walk(g, v, t, t.root, q) != Some(t.root)
  {
    hide TreeOk, Walk, AskAt;
    var q0, n := q[..|q| - 1], q[|q| - 1];
    assert q == q0 + [n];
    WalkSnoc(g, v, t, q0, n);
    UpIs(g, v, t, Walk(g, v, t, t.root, q0).value, n);
  }

  // ----- the move -----

  /** A move from path `p1 + [n1]` to path `p2 + [n2]`. */
  ghost predicate Moves(g: Geo, v: Vol, t: Tree, p1: seq<Name>, n1: Name, p2: seq<Name>, n2: Name)
  {
    && AllProper(p1) && AllProper(p2)
    && Walk(g, v, t, t.root, p1).Some? && Walk(g, v, t, t.root, p2).Some?
    && MayMove(g, v, t, Walk(g, v, t, t.root, p1).value, n1, Walk(g, v, t, t.root, p2).value, n2)
  }

  /** A directory reached through the old path is neither of the two that change. */
  lemma ThroughOld(g: Geo, v: Vol, t: Tree, p1: seq<Name>, n1: Name, p2: seq<Name>, n2: Name, q: seq<Name>)
    requires Moves(g, v, t, p1, n1, p2, n2) && AllProper(q) && p1 + [n1] <= q && Walk(g, v, t, t.root, q).Some?
    ensures Walk(g, v, t, t.root, q) != Walk(g, v, t, t.root, p1) &&
            Walk(g, v, t, t.root, q) != Walk(g, v, t, t.root, p2)
  {
    hide TreeOk, Walk, AskAt, Look;
    var k1, k2 := Walk(g, v, t, t.root, p1).value, Walk(g, v, t, t.root, p2).value;
    var from, x := p1 + [n1], q[|p1| + 1..];
    assert q == from + x;
    WalkCat(g, v, t, t.root, from, x);
    WalkSnoc(g, v, t, p1, n1);
    SourceOutside(g, v, t, k1, n1, k2, n2);
    WalkBelow(g, v, t, Walk(g, v, t, t.root, from).value, x);
  }

  /** Neither path leads through the other, and nothing is at the new one. */
  lemma OldNew(g: Geo, v: Vol, t: Tree, p1: seq<Name>, n1: Name, p2: seq<Name>, n2: Name)
    requires Moves(g, v, t, p1, n1, p2, n2)
    ensures !(p1 + [n1] <= p2) && !(p2 + [n2] <= p1) && p1 + [n1] != p2 + [n2]
    ensures Walk(g, v, t, t.root, p2 + [n2]) == None
  {
    hide TreeOk, Walk, AskAt, Look;
    WalkSnoc(g, v, t, p2, n2);
    if p1 + [n1] <= p2 { ThroughOld(g, v, t, p1, n1, p2, n2, p2); }
    if p2 + [n2] <= p1 { WalkOn(g, v, t, p2 + [n2], p1); }
    SnocSplit(p1, n1, p2, n2);
  }

  lemma SnocSplit(p1: seq<Name>, n1: Name, p2: seq<Name>, n2: Name)
    ensures p1 + [n1] == p2 + [n2] ==> p1 == p2 && n1 == n2
  {
    if p1 + [n1] == p2 + [n2] {
      assert (p1 + [n1])[..|p1|] == p1 && (p2 + [n2])[..|p2|] == p2 && (p1 + [n1])[|p1|] == n1 &&
        (p2 + [n2])[|p2|] == n2;
    }
  }

  /** Where a path leads after the move: what was below the old name is below the new one. */
  ghost function Sent(g: Geo, v: Vol, t: Tree, from: seq<Name>, to: seq<Name>, q: seq<Name>): Option<nat>
  {
    if to <= q then Walk(g, v, t, t.root, from + q[|to|..]) else if from <= q then None else Walk(g, v, t, t.root, q)
  }

  lemma PrefixSnoc(p: seq<Name>, n: Name, q0: seq<Name>, x: Name)
    ensures p + [n] <= q0 + [x] <==> p + [n] <= q0 || (p == q0 && n == x)
  {
    var a, b := p + [n], q0 + [x];
    if a <= b && !(a <= q0) {
      assert |a| == |b| && a == b;
      assert a[..|p|] == p && b[..|p|] == q0 && a[|p|] == n && b[|p|] == x;
    }
  }

  /** One step from directory `d` in the moved volume, in terms of the old one. */
  ghost function StepAfter(g: Geo, v: Vol, t: Tree, k1: nat, n1: Name, k2: nat, n2: Name, d: Option<nat>,
      x: Name): Option<nat>
  {
    if d == Some(k1) && x == n1 then None
    else if d == Some(k2) && x == n2 then DirStep(g, v, t, Some(k1), n1)
    else DirStep(g, v, t, d, x)
  }

  lemma StepIs(g: Geo, v: Vol, t: Tree, k1: nat, n1: Name, k2: nat, n2: Name, v': Vol, d2: DirRef, d: Option<nat>,
      x: Name)
    requires MoveDone(g, v, t, k1, n1, k2, n2, v', d2) && Proper(x)
    ensures DirStep(g, v', TreeAfter(g, v, t, k1, n1, k2, d2), d, x) == StepAfter(g, v, t, k1, n1, k2, n2, d, x)
  {
    hide Look, DirSecs, DirOk, RefsApart, HasEnt, DotDot, Dot, InSub, IsDirRef, KeyOf, NewDepth, Ask, AskAt, Moved,
         TreeOk;
    if d.Some? { AskIs(g, v, t, k1, n1, k2, n2, v', d2, d.value, x); }
    assert TreeAfter(g, v, t, k1, n1, k2, d2).dirs.Keys == t.dirs.Keys;
  }

  lemma SentStep(g: Geo, v: Vol, t: Tree, p1: seq<Name>, n1: Name, p2: seq<Name>, n2: Name, q0: seq<Name>, x: Name)
    requires Moves(g, v, t, p1, n1, p2, n2) && AllProper(q0) && Proper(x)
    ensures Sent(g, v, t, p1 + [n1], p2 + [n2], q0 + [x]) ==
            StepAfter(g, v, t, Walk(g, v, t, t.root, p1).value, n1, Walk(g, v, t, t.root, p2).value, n2,
                      Sent(g, v, t, p1 + [n1], p2 + [n2], q0), x)
  {
    hide TreeOk, Walk, AskAt, DirStep, InSub, Look;
    var from, to := p1 + [n1], p2 + [n2];
    var w1, w2 := Walk(g, v, t, t.root, p1), Walk(g, v, t, t.root, p2);
    OldNew(g, v, t, p1, n1, p2, n2);
    PrefixSnoc(p1, n1, q0, x);
    PrefixSnoc(p2, n2, q0, x);
    WalkSnoc(g, v, t, q0, x);
    WalkSnoc(g, v, t, p1, n1);
    if to <= q0 {
      var r := from + q0[|to|..];
      assert from + (q0 + [x])[|to|..] == r + [x];
      WalkSnoc(g, v, t, r, x);
      ProperCat(p1, n1, q0, |to|);
      if Walk(g, v, t, t.root, r).Some? { ThroughOld(g, v, t, p1, n1, p2, n2, r); }
    } else if to <= q0 + [x] {
      assert from + (q0 + [x])[|to|..] == from;
    } else if from <= q0 {
      StepNone(g, v, t, x);
    } else if !(from <= q0 + [x]) {
      if Walk(g, v, t, t.root, q0) == w1 { DirUnique(g, v, t, q0, p1); }
      if Walk(g, v, t, t.root, q0) == w2 { DirUnique(g, v, t, q0, p2); }
    }
  }

  lemma StepNone(g: Geo, v: Vol, t: Tree, x: Name)
    ensures DirStep(g, v, t, None, x) == None
  {
  }

  lemma ProperCat(p1: seq<Name>, n1: Name, q: seq<Name>, i: nat)
    requires AllProper(p1) && AllProper(q) && i <= |q|
    ensures Proper(n1) ==> AllProper(p1 + [n1] + q[i..])
  {
  }

  /** Directories: what was reached below the old path is reached below the new one, nothing is reached
      through the old one, and every other path leads where it led, be it nowhere. */
  lemma {:induction false} MoveWalks(g: Geo, v: Vol, t: Tree, p1: seq<Name>, n1: Name, p2: seq<Name>, n2: Name,
      v': Vol, d2: DirRef, q: seq<Name>)
    requires Moves(g, v, t, p1, n1, p2, n2) && AllProper(q)
    requires MoveDone(g, v, t, Walk(g, v, t, t.root, p1).value, n1, Walk(g, v, t, t.root, p2).value, n2, v', d2)
    ensures var t' := TreeAfter(g, v, t, Walk(g, v, t, t.root, p1).value, n1, Walk(g, v, t, t.root, p2).value, d2);
            Walk(g, v', t', t.root, q) == Sent(g, v, t, p1 + [n1], p2 + [n2], q)
    decreases |q|
  {
    hide TreeOk, Walk, AskAt, DirStep, StepAfter, InSub, Look, Moved;
    var k1, k2 := Walk(g, v, t, t.root, p1).value, Walk(g, v, t, t.root, p2).value;
    var t' := TreeAfter(g, v, t, k1, n1, k2, d2);
    if q == [] {
      StartSame(g, v, t, k1, n1, k2, n2, v', d2);
    } else {
      var q0, x := q[..|q| - 1], q[|q| - 1];
      assert q == q0 + [x];
      MoveWalks(g, v, t, p1, n1, p2, n2, v', d2, q0);
      WalkSnoc(g, v', t', q0, x);
      StepIs(g, v, t, k1, n1, k2, n2, v', d2, Walk(g, v', t', t.root, q0), x);
      SentStep(g, v, t, p1, n1, p2, n2, q0, x);
    }
  }

  lemma StartSame(g: Geo, v: Vol, t: Tree, k1: nat, n1: Name, k2: nat, n2: Name, v': Vol, d2: DirRef)
    requires MoveDone(g, v, t, k1, n1, k2, n2, v', d2)
    ensures var t' := TreeAfter(g, v, t, k1, n1, k2, d2);
            t'.root == t.root && Walk(g, v', t', t.root, []) == Walk(g, v, t, t.root, [])
  {
    hide Look, DirSecs, Moved;
  }

  /** The entry at path `q` after the move. */
  ghost function Found(g: Geo, v: Vol, t: Tree, from: seq<Name>, to: seq<Name>, q: seq<Name>): Option<Meta>
  {
    if to <= q then Resolve(g, v, t, from + q[|to|..]) else if from <= q then None else Resolve(g, v, t, q)
  }

  lemma ResolveSnoc(g: Geo, v: Vol, t: Tree, q: seq<Name>, n: Name)
    ensures Resolve(g, v, t, q + [n]) == var d := Walk(g, v, t, t.root, q);
            if d.Some? then AskAt(g, v, t, d.value, n) else None
  {
    assert (q + [n])[..|q|] == q;
  }

  /** Every path, to a file or a directory or to nothing: new/x resolves to what old/x did, nothing
      resolves at or below the old path, and every other path resolves as it did. */
  lemma MovePaths(g: Geo, v: Vol, t: Tree, p1: seq<Name>, n1: Name, p2: seq<Name>, n2: Name, v': Vol, d2: DirRef,
      q: seq<Name>)
    requires Moves(g, v, t, p1, n1, p2, n2) && AllProper(q)
    requires MoveDone(g, v, t, Walk(g, v, t, t.root, p1).value, n1, Walk(g, v, t, t.root, p2).value, n2, v', d2)
    ensures var t' := TreeAfter(g, v, t, Walk(g, v, t, t.root, p1).value, n1, Walk(g, v, t, t.root, p2).value, d2);
            Resolve(g, v', t', q) == Found(g, v, t, p1 + [n1], p2 + [n2], q)
  {
    hide TreeOk, Walk, AskAt, DirStep, InSub, Look, Resolve, Moved;
    var k1, k2 := Walk(g, v, t, t.root, p1).value, Walk(g, v, t, t.root, p2).value;
    var t' := TreeAfter(g, v, t, k1, n1, k2, d2);
    if q == [] {
      StartSame(g, v, t, k1, n1, k2, n2, v', d2);
      ResolveEmpty(g, v, t);
      ResolveEmpty(g, v', t');
    } else {
      var q0, x := q[..|q| - 1], q[|q| - 1];
      assert q == q0 + [x];
      StartSame(g, v, t, k1, n1, k2, n2, v', d2);
      MoveWalks(g, v, t, p1, n1, p2, n2, v', d2, q0);
      ResolveSnoc(g, v', t', q0, x);
      FoundStep(g, v, t, p1, n1, p2, n2, q0, x);
      var d := Sent(g, v, t, p1 + [n1], p2 + [n2], q0);
      if d.Some? { AskIs(g, v, t, k1, n1, k2, n2, v', d2, d.value, x); }
    }
  }

  lemma ResolveEmpty(g: Geo, v: Vol, t: Tree)
    ensures Resolve(g, v, t, []) == None
  {
  }

  lemma FoundStep(g: Geo, v: Vol, t: Tree, p1: seq<Name>, n1: Name, p2: seq<Name>, n2: Name, q0: seq<Name>, x: Name)
    requires Moves(g, v, t, p1, n1, p2, n2) && AllProper(q0) && Proper(x)
    ensures var k1, k2 := Walk(g, v, t, t.root, p1).value, Walk(g, v, t, t.root, p2).value;
            var d := Sent(g, v, t, p1 + [n1], p2 + [n2], q0);
            Found(g, v, t, p1 + [n1], p2 + [n2], q0 + [x]) ==
            if d.None? then None else if d.value == k1 && x == n1 then None else if d.value == k2 && x == n2
              then AskAt(g, v, t, k1, n1)
              else AskAt(g, v, t, d.value, x)
  {
    hide TreeOk, Walk, AskAt, DirStep, InSub, Look, Resolve;
    var from, to := p1 + [n1], p2 + [n2];
    var w1, w2 := Walk(g, v, t, t.root, p1), Walk(g, v, t, t.root, p2);
    OldNew(g, v, t, p1, n1, p2, n2);
    PrefixSnoc(p1, n1, q0, x);
    PrefixSnoc(p2, n2, q0, x);
    ResolveSnoc(g, v, t, q0, x);
    ResolveSnoc(g, v, t, p1, n1);
    if to <= q0 {
      var r := from + q0[|to|..];
      assert from + (q0 + [x])[|to|..] == r + [x];
      ResolveSnoc(g, v, t, r, x);
      ProperCat(p1, n1, q0, |to|);
      if Walk(g, v, t, t.root, r).Some? { ThroughOld(g, v, t, p1, n1, p2, n2, r); }
    } else if to <= q0 + [x] {
      assert from + (q0 + [x])[|to|..] == from;
    } else if !(from <= q0) && !(from <= q0 + [x]) {
      if Walk(g, v, t, t.root, q0) == w1 { DirUnique(g, v, t, q0, p1); }
      if Walk(g, v, t, t.root, q0) == w2 { DirUnique(g, v, t, q0, p2); }
    }
  }
}
