/** The life of an address space: what a copy takes from the allocator, taking it down gives back. */
module VmLife {
  import opened PageTables
  import opened VmSpec
  import opened VmFork
  import opened VmChild
  import opened VmDestroy

  /** A user leaf of the child leads to the page copied for its slot. */
  lemma LeafHasPage(s0: Sys, dp: Dir, s: Sys, cp: Copy, y: Pos, j: nat)
    requires Separate(s0, dp, s, cp) && UserLeaf(s.m, cp.dc, y, j)
    ensures (y, j) in cp.pg && Entry(s.m, cp.dc, y, j).frame == cp.pg[(y, j)]
  {
    if y in dp {
      EntryIs(s0, dp, s, cp, y, j);
    } else {
      SplitEntryOk(s0, dp, s, cp, y, j);
    }
    hide Copying, LevelDone, FilledUnder, Space, Shared;
  }

  lemma PageHasLeaf(s0: Sys, dp: Dir, s: Sys, cp: Copy, k: SlotKey)
    requires Separate(s0, dp, s, cp) && k in cp.pg
    ensures UserLeaf(s.m, cp.dc, k.0, k.1) && Entry(s.m, cp.dc, k.0, k.1).frame == cp.pg[k]
  {
    assert NewFrame(s0, s, cp.pg[k]) && NeedPage(s0, dp, k);
    if k.0 in dp {
      EntryIs(s0, dp, s, cp, k.0, k.1);
    } else {
      SplitEntryOk(s0, dp, s, cp, k.0, k.1);
    }
    hide Copying, LevelDone, FilledUnder, Space, Shared;
  }

  lemma CopyMayGo(s0: Sys, dp: Dir, s: Sys, cp: Copy)
    requires Separate(s0, dp, s, cp)
    ensures MayDestroy(s, cp.dc)
  {
    hide Copying, LevelDone, Space, Building;
    SeparateSpace(s0, dp, s, cp);
    CopyApart(s0, dp, s, cp);
    forall y, j: nat | UserLeaf(s.m, cp.dc, y, j)
      ensures (y, j) in cp.pg && Entry(s.m, cp.dc, y, j).frame == cp.pg[(y, j)]
    {
      LeafHasPage(s0, dp, s, cp, y, j);
    }
  }

  lemma CopyApart(s0: Sys, dp: Dir, s: Sys, cp: Copy)
    requires Separate(s0, dp, s, cp)
    ensures PagesApart(cp)
  {
  }

  /** The frames that go with the child are those the copy took. */
  lemma CopyFrames(s0: Sys, dp: Dir, s: Sys, cp: Copy, f: nat)
    requires Separate(s0, dp, s, cp)
    ensures f in TablesUnder(cp.dc, Top) <==> exists y :: y in cp.dc && cp.dc[y] == f
    ensures f in LeavesUnder(s.m, cp.dc, Top) <==> exists k :: k in cp.pg && cp.pg[k] == f
  {
    forall y | y in cp.dc
      ensures Under(y, Top)
    {
      UnderTop(y);
    }
    hide Separate;
    if f in LeavesUnder(s.m, cp.dc, Top) {
      var y, j :| y in cp.dc && Under(y, Top) && 0 <= j < 512 && UserLeaf(s.m, cp.dc, y, j) &&
        Entry(s.m, cp.dc, y, j).frame == f;
      LeafHasPage(s0, dp, s, cp, y, j);
    }
    if exists k :: k in cp.pg && cp.pg[k] == f {
      var k :| k in cp.pg && cp.pg[k] == f;
      PageHasLeaf(s0, dp, s, cp, k);
      assert k.0 in cp.dc && Under(k.0, Top) && UserLeaf(s.m, cp.dc, k.0, k.1);
    }
  }

  /** A frame of the old state is as it was in every respect. */
  ghost predicate AsBefore(s0: Sys, s2: Sys)
  {
    AllKept(s0, s2) && s2.used == s0.used
  }

  lemma FrameBackAgain(s0: Sys, dp: Dir, s: Sys, cp: Copy, s2: Sys, f: nat)
    requires Separate(s0, dp, s, cp) && Gone(s, cp.dc, s, s2, Top) && f < |s0.used|
    ensures |s2.used| == |s2.m| == |s2.data| == |s2.refs| == |s0.m| == |s0.data| == |s0.used| == |s0.refs|
    ensures s2.used[f] == s0.used[f] && (s0.used[f] ==> FrameKept(s0, s2, f))
  {
    CopyFrames(s0, dp, s, cp, f);
    assert AllKept(s0, s) && (s0.used[f] ==> FrameKept(s0, s, f));
    assert FrameAfter(s, s2, TablesUnder(cp.dc, Top), LeavesUnder(s.m, cp.dc, Top), f);
    TakenOnce(s0, dp, s, cp, f);
    hide Separate, TablesUnder, LeavesUnder, AllKept;
  }

  lemma TakenOnce(s0: Sys, dp: Dir, s: Sys, cp: Copy, f: nat)
    requires Separate(s0, dp, s, cp) && f < |s0.used|
    ensures Used(cp, f) ==> NewFrame(s0, s, f)
    ensures f < |s.used| && s.used[f] && !s0.used[f] ==> Used(cp, f)
    ensures |s.used| == |s.m| == |s.data| == |s.refs| == |s0.m| == |s0.data| == |s0.used| == |s0.refs|
    ensures s0.used[f] ==> s.used[f]
  {
    assert s0.used[f] ==> FrameKept(s0, s, f);
  }

  /** Copying an address space, for fork or from the kernel template, and taking the copy down
      again gives back every frame and touches no other. */
  lemma CopyThenGone(s0: Sys, dp: Dir, s: Sys, cp: Copy, s2: Sys)
    requires Separate(s0, dp, s, cp) && Gone(s, cp.dc, s, s2, Top)
    ensures AsBefore(s0, s2)
  {
    FrameBackAgain(s0, dp, s, cp, s2, 0);
    forall f: nat | f < |s0.used|
      ensures s2.used[f] == s0.used[f] && (s0.used[f] ==> FrameKept(s0, s2, f))
    {
      FrameBackAgain(s0, dp, s, cp, s2, f);
    }
  }
}
