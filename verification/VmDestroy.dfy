/** Taking an address space down (destroy_level in kernel/mm/vmm.c): which frames go, table by
    table and leaf by leaf. */
module VmDestroy {
  import opened PageTables
  import opened Pmm
  import opened VmSpec
  import opened VmFork

  // ----- what becomes of the frames -----

  /** One reference let go of: at the last one the frame is free. */
  predicate LetGo(used: bool, refs: int, used': bool, refs': int)
  {
    if refs == 0 then used' == used && refs' == 0
    else if refs > 1 then used' == used && refs' == refs - 1
    else !used' && refs' == 0
  }

  /** A table's frame is free, a leaf's frame has one reference less, any other is as it was. */
  ghost predicate FrameAfter(s: Sys, s': Sys, tabs: set<nat>, leaves: set<nat>, f: nat)
    requires f < |s.used| == |s'.used| == |s.refs| == |s'.refs|
  {
    if f in tabs then !s'.used[f] && s'.refs[f] == s.refs[f]
    else if f in leaves then LetGo(s.used[f], s.refs[f], s'.used[f], s'.refs[f])
    else s'.used[f] == s.used[f] && s'.refs[f] == s.refs[f]
  }

  ghost predicate Erased(s: Sys, s': Sys, tabs: set<nat>, leaves: set<nat>)
  {
    && |s'.m| == |s.m| && s'.data == s.data && |s'.used| == |s.used| == |s.refs| == |s'.refs|
    && forall f: nat :: f < |s.used| ==> FrameAfter(s, s', tabs, leaves, f)
  }

  ghost predicate MemKept(m: Mem, m': Mem, tabs: set<nat>)
  {
    |m'| == |m| && forall f: nat :: f < |m| && f !in tabs ==> m'[f] == m[f]
  }

  lemma ErasedTrans(s: Sys, s1: Sys, s2: Sys, t1: set<nat>, l1: set<nat>, t2: set<nat>, l2: set<nat>)
    requires Erased(s, s1, t1, l1) && Erased(s1, s2, t2, l2) && t1 + l1 !! t2 + l2
    ensures Erased(s, s2, t1 + t2, l1 + l2)
  {
    forall f: nat | f < |s.used|
      ensures FrameAfter(s, s2, t1 + t2, l1 + l2, f)
    {
      assert FrameAfter(s, s1, t1, l1, f) && FrameAfter(s1, s2, t2, l2, f);
    }
  }

  lemma ErasedLeaf(s: Sys, t: nat, i: nat, f: nat)
    requires Sane(s) && t < |s.m| && i < 512
    ensures Frames(s.used, s.refs).WellFormed()
    ensures Erased(s, s.Deref(f).WithMem(Poke(s.m, t, i, ZERO)), {}, if f < |s.m| then {f} else {})
    ensures MemKept(s.m, Poke(s.m, t, i, ZERO), {t})
  {
  }

  lemma ErasedNothing(s: Sys, t: nat, i: nat)
    requires Sane(s) && t < |s.m| && i < 512
    ensures Erased(s, s.WithMem(Poke(s.m, t, i, ZERO)), {}, {})
    ensures MemKept(s.m, Poke(s.m, t, i, ZERO), {t})
    ensures Erased(s, s, {}, {}) && MemKept(s.m, s.m, {})
  {
  }

  lemma ErasedTable(s: Sys, t: nat)
    requires Sane(s) && 0 < t < |s.m|
    ensures Erased(s, s.Free(t), {t}, {}) && MemKept(s.m, s.Free(t).m, {t})
  {
  }

  lemma MemKeptTrans(m: Mem, m1: Mem, m2: Mem, t1: set<nat>, t2: set<nat>)
    requires MemKept(m, m1, t1) && MemKept(m1, m2, t2)
    ensures MemKept(m, m2, t1 + t2)
  {
  }

  // ----- the frames below a place -----

  /** A user 4 KiB leaf onto memory. */
  predicate UserLeaf(m: Mem, d: Dir, y: Pos, j: nat)
  {
    y in d && y.Level() == 0 && j < 512 && Entry(m, d, y, j).p && Entry(m, d, y, j).u && Entry(m, d, y, j).frame < |m|
  }

  /** Each user frame is mapped by one leaf, and holds no table. */
  ghost predicate LeavesApart(m: Mem, d: Dir)
  {
    && (forall y, j, z, k ::
         UserLeaf(m, d, y, j) && UserLeaf(m, d, z, k) && Entry(m, d, y, j).frame == Entry(m, d, z, k).frame ==>
          y == z && j == k)
    && (forall y, j :: UserLeaf(m, d, y, j) ==> Outside(d, Entry(m, d, y, j).frame))
  }

  ghost function TablesUnder(d: Dir, x: Pos): set<nat>
  {
    set y | y in d && Under(y, x) :: d[y]
  }

  ghost function LeavesUnder(m: Mem, d: Dir, x: Pos): set<nat>
  {
    set y, j | y in d && Under(y, x) && 0 <= j < 512 && UserLeaf(m, d, y, j) :: Entry(m, d, y, j).frame
  }

  /** `y` is below one of the first `n` entries of `x`. */
  ghost predicate UnderTo(y: Pos, x: Pos, n: nat)
  {
    exists i :: 0 <= i < n && Under(y, Child(x, i))
  }

  ghost function TablesTo(d: Dir, x: Pos, n: nat): set<nat>
  {
    set y | y in d && UnderTo(y, x, n) :: d[y]
  }

  ghost predicate LeafTo(y: Pos, j: nat, x: Pos, n: nat)
  {
    UnderTo(y, x, n) || (y == x && j < n)
  }

  ghost function LeavesTo(m: Mem, d: Dir, x: Pos, n: nat): set<nat>
  {
    set y, j | y in d && 0 <= j < 512 && LeafTo(y, j, x, n) && UserLeaf(m, d, y, j) :: Entry(m, d, y, j).frame
  }

  lemma ToStart(m: Mem, d: Dir, x: Pos)
    ensures TablesTo(d, x, 0) == {} && LeavesTo(m, d, x, 0) == {}
  {
  }

  lemma UnderToNext(y: Pos, x: Pos, n: nat)
    ensures UnderTo(y, x, n + 1) <==> UnderTo(y, x, n) || Under(y, Child(x, n))
  {
  }

  lemma ToNextLink(m: Mem, d: Dir, x: Pos, n: nat)
    requires Space(m, d) && x in d && n < 512 && x.Level() > 0
    ensures TablesTo(d, x, n + 1) == TablesTo(d, x, n) + TablesUnder(d, Child(x, n))
    ensures LeavesTo(m, d, x, n + 1) == LeavesTo(m, d, x, n) + LeavesUnder(m, d, Child(x, n))
  {
    hide Under, UnderTo, Space;
    forall y { UnderToNext(y, x, n); }
  }

  lemma ToNextLeaf(m: Mem, d: Dir, x: Pos, n: nat)
    requires Space(m, d) && x in d && n < 512 && !IsLink(Entry(m, d, x, n), x.Level())
    ensures TablesTo(d, x, n + 1) == TablesTo(d, x, n)
    ensures LeavesTo(m, d, x, n + 1) == LeavesTo(m, d, x, n) + if UserLeaf(m, d, x, n) then {Entry(m, d, x, n).frame}
            else {}
  {
    NoneBelow(m, d, x, n);
    hide Under, UnderTo, Space;
    forall y { UnderToNext(y, x, n); }
  }

  lemma ToEnd(m: Mem, d: Dir, x: Pos)
    requires Space(m, d) && x in d
    ensures TablesUnder(d, x) == TablesTo(d, x, 512) + {d[x]}
    ensures LeavesUnder(m, d, x) == LeavesTo(m, d, x, 512)
  {
    forall y | y in d
      ensures Under(y, x) <==> UnderTo(y, x, 512) || y == x
    {
      if Under(y, x) && y != x {
        SpacePlaces(m, d, y);
        var i := UnderSome(y, x);
      }
      if UnderTo(y, x, 512) {
        var i :| 0 <= i < 512 && Under(y, Child(x, i));
        UnderTrans(y, Child(x, i), x);
      }
    }
    hide Under, UnderTo, Space;
  }

  /** What goes at entry `n` has not gone before. */
  lemma ToApart(m: Mem, d: Dir, x: Pos, n: nat)
    requires Space(m, d) && LeavesApart(m, d) && x in d && n < 512
    ensures TablesTo(d, x, n) + LeavesTo(m, d, x, n) !! TablesUnder(d, Child(x, n)) + LeavesUnder(m, d, Child(x, n))
    ensures UserLeaf(m, d, x, n) ==> Entry(m, d, x, n).frame !in TablesTo(d, x, n) + LeavesTo(m, d, x, n)
    ensures d[x] !in TablesTo(d, x, n) + LeavesTo(m, d, x, n) + TablesUnder(d, Child(x, n))
  {
    forall y
      ensures !(UnderTo(y, x, n) && Under(y, Child(x, n)))
    {
      if UnderTo(y, x, n) && Under(y, Child(x, n)) {
        var i :| 0 <= i < n && Under(y, Child(x, i));
        UnderOneChild(y, x, i, n);
      }
    }
    assert !UnderTo(x, x, n) && !Under(x, Child(x, n)) by {
      forall i
        ensures !Under(x, Child(x, i))
      {
        if Under(x, Child(x, i)) { UnderDepth(x, Child(x, i)); }
      }
    }
    hide Under, UnderTo, Space;
  }

  // ----- one table, entry by entry -----

  /** The tables at and below `x` are still what they were. */
  ghost predicate Intact(m0: Mem, m: Mem, d: Dir, x: Pos)
  {
    |m| == |m0| && forall y :: y in d && Under(y, x) ==> d[y] < |m| && m[d[y]] == m0[d[y]]
  }

  ghost predicate MayDestroy(s0: Sys, d: Dir)
  {
    Space(s0.m, d) && Owned(s0, d) && LeavesApart(s0.m, d)
  }

  /** From `s` to `s1` the first `n` entries of the table at `x` are gone, with all below them. */
  ghost predicate Erasing(s0: Sys, d: Dir, s: Sys, s1: Sys, x: Pos, n: nat)
  {
    && x in d && d[x] < |s0.m| && Intact(s0.m, s.m, d, x)
    && Erased(s, s1, TablesTo(d, x, n), LeavesTo(s0.m, d, x, n))
    && MemKept(s.m, s1.m, TablesTo(d, x, n) + {d[x]})
    && forall j :: n <= j < 512 ==> s1.m[d[x]][j] == s0.m[d[x]][j]
  }

  /** The table at `x` and all below it is gone. */
  ghost predicate Gone(s0: Sys, d: Dir, s: Sys, s1: Sys, x: Pos)
  {
    Erased(s, s1, TablesUnder(d, x), LeavesUnder(s0.m, d, x)) && MemKept(s.m, s1.m, TablesUnder(d, x))
  }

  lemma ErasingStart(s0: Sys, d: Dir, s: Sys, x: Pos)
    requires MayDestroy(s0, d) && Sane(s) && x in d && Intact(s0.m, s.m, d, x)
    ensures Erasing(s0, d, s, s, x, 0)
  {
    ToStart(s0.m, d, x);
    ErasedNothing(s, 0, 0);
    assert Under(x, x);
  }

  lemma ErasingEntry(s0: Sys, d: Dir, s: Sys, s1: Sys, x: Pos, n: nat)
    requires MayDestroy(s0, d) && Erasing(s0, d, s, s1, x, n) && n < 512
    ensures x in d && |s1.m| == |s0.m| && 0 <= x.Level() <= 3 && 0 < d[x] < |s1.m| &&
            s1.m[d[x]][n] == Entry(s0.m, d, x, n)
    ensures IsLink(Entry(s0.m, d, x, n), x.Level()) ==>
              Child(x, n) in d && Entry(s0.m, d, x, n).frame == d[Child(x, n)] && !Entry(s0.m, d, x, n).ps
  {
    assert EntryOk(s0.m, d, x, n);
  }

  /** Only entry `i` of frame `t` may differ. */
  ghost predicate OneEntry(m: Mem, m': Mem, t: nat, i: nat)
  {
    && t < |m'| == |m| && (forall f :: 0 <= f < |m| && f != t ==> m'[f] == m[f])
    && (forall j :: 0 <= j < 512 && j != i ==> m'[t][j] == m[t][j])
  }

  /** An entry that is no link: its leaf, if any, is let go of and the entry cleared. */
  lemma ErasingLeaf(s0: Sys, d: Dir, s: Sys, s1: Sys, s2: Sys, x: Pos, n: nat, l2: set<nat>)
    requires MayDestroy(s0, d) && Erasing(s0, d, s, s1, x, n) && n < 512 && !IsLink(Entry(s0.m, d, x, n), x.Level())
    requires l2 == if UserLeaf(s0.m, d, x, n) then {Entry(s0.m, d, x, n).frame} else {}
    requires Erased(s1, s2, {}, l2) && OneEntry(s1.m, s2.m, d[x], n)
    ensures Erasing(s0, d, s, s2, x, n + 1)
  {
    ToApart(s0.m, d, x, n);
    ToNextLeaf(s0.m, d, x, n);
    var t1, l1 := TablesTo(d, x, n), LeavesTo(s0.m, d, x, n);
    hide TablesTo, LeavesTo, LeavesUnder, TablesUnder, Space, Owned, LeavesApart, FrameAfter, Intact, UserLeaf;
    assert t1 + {} == t1 && t1 + l1 !! {} + l2;
    ErasedTrans(s, s1, s2, t1, l1, {}, l2);
    assert MemKept(s1.m, s2.m, {d[x]});
    MemKeptTrans(s.m, s1.m, s2.m, t1 + {d[x]}, {d[x]});
    assert t1 + {d[x]} + {d[x]} == t1 + {d[x]};
  }

  /** The tables below entry `n` are intact when their turn comes. */
  lemma BelowIntact(s0: Sys, d: Dir, s: Sys, s1: Sys, x: Pos, n: nat)
    requires MayDestroy(s0, d) && Erasing(s0, d, s, s1, x, n) && n < 512
    ensures Intact(s0.m, s1.m, d, Child(x, n))
  {
    ToApart(s0.m, d, x, n);
    forall y | y in d && Under(y, Child(x, n))
      ensures d[y] < |s1.m| && s1.m[d[y]] == s0.m[d[y]]
    {
      UnderTrans(y, Child(x, n), x);
      assert d[y] in TablesUnder(d, Child(x, n));
    }
  }

  lemma ErasingLink(s0: Sys, d: Dir, s: Sys, s1: Sys, s2: Sys, s3: Sys, x: Pos, n: nat)
    requires MayDestroy(s0, d) && Erasing(s0, d, s, s1, x, n) && n < 512 && x.Level() > 0
    requires Gone(s0, d, s1, s2, Child(x, n)) && d[x] < |s2.m| && s3 == s2.WithMem(Poke(s2.m, d[x], n, ZERO))
    ensures Erasing(s0, d, s, s3, x, n + 1)
  {
    ToApart(s0.m, d, x, n);
    ToNextLink(s0.m, d, x, n);
    var t1, l1 := TablesTo(d, x, n), LeavesTo(s0.m, d, x, n);
    var t2, l2 := TablesUnder(d, Child(x, n)), LeavesUnder(s0.m, d, Child(x, n));
    hide TablesTo, LeavesTo, LeavesUnder, TablesUnder, Space, Owned, LeavesApart, FrameAfter, Intact;
    ErasedTrans(s, s1, s2, t1, l1, t2, l2);
    SameFrames(s, s2, s3, t1 + t2, l1 + l2);
    MemKeptTrans(s.m, s1.m, s2.m, t1 + {d[x]}, t2);
    MemKeptTrans(s.m, s2.m, s3.m, t1 + {d[x]} + t2, {d[x]});
    assert t1 + {d[x]} + t2 + {d[x]} == t1 + t2 + {d[x]};
  }

  lemma SameFrames(s: Sys, s1: Sys, s2: Sys, tabs: set<nat>, leaves: set<nat>)
    requires Erased(s, s1, tabs, leaves) && |s2.m| == |s1.m| && s2.data == s1.data && s2.used == s1.used &&
             s2.refs == s1.refs
    ensures Erased(s, s2, tabs, leaves)
  {
    forall f: nat | f < |s.used|
      ensures FrameAfter(s, s2, tabs, leaves, f)
    {
      assert FrameAfter(s, s1, tabs, leaves, f);
    }
  }

  lemma ErasingEnd(s0: Sys, d: Dir, s: Sys, s1: Sys, x: Pos)
    requires MayDestroy(s0, d) && Erasing(s0, d, s, s1, x, 512) && Sane(s1)
    ensures d[x] > 0 && Gone(s0, d, s, s1.Free(d[x]), x)
  {
    ToEnd(s0.m, d, x);
    OwnApart(s0, d, x);
    ErasedTable(s1, d[x]);
    var t1, l1 := TablesTo(d, x, 512), LeavesTo(s0.m, d, x, 512);
    hide TablesTo, LeavesTo, LeavesUnder, TablesUnder, Space, LeavesApart, FrameAfter, Intact;
    assert l1 + {} == l1;
    ErasedTrans(s, s1, s1.Free(d[x]), t1, l1, {d[x]}, {});
    MemKeptTrans(s.m, s1.m, s1.Free(d[x]).m, t1 + {d[x]}, {d[x]});
    assert t1 + {d[x]} + {d[x]} == t1 + {d[x]};
  }

  lemma OwnApart(s0: Sys, d: Dir, x: Pos)
    requires MayDestroy(s0, d) && x in d
    ensures d[x] !in TablesTo(d, x, 512) + LeavesTo(s0.m, d, x, 512)
  {
    forall i
      ensures !Under(x, Child(x, i))
    {
      if Under(x, Child(x, i)) { UnderDepth(x, Child(x, i)); }
    }
    assert !UnderTo(x, x, 512);
    hide Under, UnderTo;
  }
}
