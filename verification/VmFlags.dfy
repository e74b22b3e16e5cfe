/** Address spaces on which a split and a fork lose flags, and a fork shares a table (kernel/arch/x86_64/paging.c
    and kernel/mm/vmm.c). */
module VmFlags {
  import opened PageTables
  import opened PhysMem
  import opened Pmm
  import opened VmSpec
  import opened VmFork
  import opened VmChild
  import opened VmNeed
  import opened VmCopy

  /** Page 0, and its path: PML4 in frame 1, PDPT in frame 2, PD in frame 3. */
  function Zeroth(): Page
  {
    VPage(0, 0, 0, 0)
  }

  function OneDir(): Dir
  {
    map[At(Zeroth(), 3) := 1, At(Zeroth(), 2) := 2, At(Zeroth(), 1) := 3]
  }

  function Only(e: Pte): Table
  {
    EmptyTable()[0 := e]
  }

  function OneTable(e: Pte, f: nat): Table
  {
    if f == 1 then Only(LinkTo(2, true)) else if f == 2 then Only(LinkTo(3, true)) else if f == 3 then Only(e)
    else EmptyTable()
  }

  /** `n` frames, of which those from 4 on are free; the PD holds the leaf `e` and nothing else. */
  function OneLeaf(n: nat, e: Pte): Sys
  {
    Sys(seq(n, (f: nat) => OneTable(e, f)), seq(n, _ => ZeroBytes()), seq(n, (f: nat) => f < 4),
        seq(n, (f: nat) => if 0 < f < 4 then 1 else 0))
  }

  /** A user 2 MiB leaf of page 0, over device memory, with the given PCD and NX. */
  function BigLeaf(pcd: bool, nx: bool): Pte
  {
    ZERO.(p := true, w := true, u := true, ps := true, pcd := pcd, nx := nx, frame := 1024)
  }

  lemma OneEntry(n: nat, e: Pte, x: Pos, i: nat)
    requires n > 4 && x in OneDir() && i < 512
    ensures Entry(OneLeaf(n, e).m, OneDir(), x, i) ==
            if i > 0 then ZERO else if x.Level() == 3 then LinkTo(2, true)
            else if x.Level() == 2 then LinkTo(3, true) else e
    ensures Child(x, i) in OneDir() <==> i == 0 && x.Level() > 1
  {
  }

  lemma OneSpace(n: nat, pcd: bool, nx: bool)
    requires n > 4
    ensures var s := OneLeaf(n, BigLeaf(pcd, nx)); Sane(s) && Space(s.m, OneDir()) && Owned(s, OneDir())
    ensures LeafOf(OneLeaf(n, BigLeaf(pcd, nx)).m, OneDir(), Zeroth()) == BigLeaf(pcd, nx)
    ensures Entry(OneLeaf(n, BigLeaf(pcd, nx)).m, OneDir(), At(Zeroth(), 1), 0) == BigLeaf(pcd, nx)
    ensures Deep(OneDir(), Zeroth()) == 1
  {
    var e, d := BigLeaf(pcd, nx), OneDir();
    var s := OneLeaf(n, e);
    assert |s.m| == n && d[Top] < n;
    OneEntry(n, e, At(Zeroth(), 1), 0);
    forall x, i | x in d && 0 <= i < 512
      ensures EntryOk(s.m, d, x, i)
    {
      hide OneLeaf;
      OneEntry(n, e, x, i);
      if x.Below? { OneEntry(n, e, x.up, x.slot); }
    }
    hide OneTable;
  }

  /** Splitting that leaf with PCD, into frame 4, leaves page 0 without it. */
  lemma SplitLosesPcd(nx: bool)
    ensures var big := BigLeaf(true, nx); var s, d := OneLeaf(5, big), OneDir();
            && OnPath(s, d, Zeroth(), 1, true)
            && !SameFlags(LeafOf(Linked(s, 3, 0, 4, SplitTable(big), true).m, d[At(Zeroth(), 0) := 4], Zeroth()), big)
  {
    var big, d, v := BigLeaf(true, nx), OneDir(), Zeroth();
    var s := OneLeaf(5, big);
    OneSpace(5, true, nx);
    assert At(v, 1) in d && d[At(v, 1)] == 3 && Idx(v, 2) == 0;
    assert |s.used| == 5 && !s.used[4];
    OneEntry(5, big, At(v, 2), 0);
    hide Space, Sane, OneDir, OneLeaf, At, Entry, LeafOf, Linked, SameFlags;
    assert OnPath(s, d, v, 1, true);
    SplitFlags(s, d, v, true, 4, v);
  }

  // ----- what a fork of it takes -----

  lemma {:induction false} FreesFrom(n: nat)
    requires n >= 4
    ensures FreeCount(seq(n, (f: nat) => f < 4)) == n - 4
  {
    var u := seq(n, (f: nat) => f < 4);
    if n == 4 {
      FreeCountZero(u);
    } else {
      FreesFrom(n - 1);
      assert u[..n - 1] == seq(n - 1, (f: nat) => f < 4);
    }
  }

  /** A table with one entry needs what that entry needs. */
  lemma {:induction false} NeedOne(m: Mem, d: Dir, x: Pos, k: nat)
    requires 0 <= x.Level() <= 3 && 0 < k && forall i: nat :: 0 < i < k ==> Entry(m, d, x, i) == ZERO
    ensures NeedTo(m, d, x, k) == 1 + EntryNeed(m, d, x, 0)
  {
    if k > 1 {
      NeedOne(m, d, x, k - 1);
      assert Entry(m, d, x, k - 1) == ZERO;
    } else {
      assert NeedTo(m, d, x, 0) == 1;
    }
  }

  lemma OneNeed(n: nat, pcd: bool, nx: bool)
    requires n > 4
    ensures var s := OneLeaf(n, BigLeaf(pcd, nx));
            Frees(s) == n - 4 && Need(s.m, OneDir(), Top) == 516 && NeedTo(s.m, OneDir(), Top, 0) == 1
  {
    FreesFrom(n);
    var e, d, v := BigLeaf(pcd, nx), OneDir(), Zeroth();
    var m := OneLeaf(n, e).m;
    assert Child(At(v, 3), 0) == At(v, 2) && Child(At(v, 2), 0) == At(v, 1);
    assert NeedTo(m, d, Top, 0) == 1;
    hide OneLeaf, NeedTo;
    NeedAt(n, e, At(v, 1));
    NeedAt(n, e, At(v, 2));
    NeedAt(n, e, At(v, 3));
    hide OneDir, Entry;
  }

  lemma NeedAt(n: nat, e: Pte, x: Pos)
    requires n > 4 && x in OneDir()
    ensures Need(OneLeaf(n, e).m, OneDir(), x) == 1 + EntryNeed(OneLeaf(n, e).m, OneDir(), x, 0)
    ensures Entry(OneLeaf(n, e).m, OneDir(), x, 0) ==
            if x.Level() == 3 then LinkTo(2, true) else if x.Level() == 2 then LinkTo(3, true) else e
  {
    hide OneLeaf, NeedTo, EntryNeed;
    var m := OneLeaf(n, e).m;
    forall i: nat | i < 512
      ensures i > 0 ==> Entry(m, OneDir(), x, i) == ZERO
    {
      OneEntry(n, e, x, i);
    }
    OneEntry(n, e, x, 0);
    NeedOne(m, OneDir(), x, 512);
  }

  // ----- a complete fork -----

  /** The child's tables are in frames 4 to 7, its pages in frames 8 to 519. */
  function ForkedTable(e: Pte, f: nat): Table
  {
    if f == 4 then Only(CopyLink(LinkTo(2, true), 5)) else if f == 5 then Only(CopyLink(LinkTo(3, true), 6))
    else if f == 6 then Only(SplitLink(e, 7)) else if f == 7 then seq(512, (j: nat) => SplitLink(e, 8 + j))
    else OneTable(e, f)
  }

  function Forked(e: Pte): Sys
  {
    Sys(seq(520, (f: nat) => ForkedTable(e, f)), seq(520, _ => ZeroBytes()), seq(520, _ => true),
        seq(520, (f: nat) => if f == 0 then 0 else 1))
  }

  function ForkedCopy(): Copy
  {
    Copy(map[At(Zeroth(), 3) := 4, At(Zeroth(), 2) := 5, At(Zeroth(), 1) := 6, At(Zeroth(), 0) := 7],
         map j: nat | j < 512 :: (At(Zeroth(), 0), j) := 8 + j)
  }

  lemma ForkedPage(j: nat)
    requires j < 512
    ensures (At(Zeroth(), 0), j) in ForkedCopy().pg && ForkedCopy().pg[(At(Zeroth(), 0), j)] == 8 + j
  {
  }

  lemma ForkedKept(e: Pte)
    ensures AllKept(OneLeaf(520, e), Forked(e)) && Sane(Forked(e))
  {
    var s0, s := OneLeaf(520, e), Forked(e);
    forall f | 0 <= f < |s0.used| && s0.used[f]
      ensures FrameKept(s0, s, f)
    {
      assert f < 4 && ForkedTable(e, f) == OneTable(e, f);
    }
    hide OneTable, ForkedTable;
  }

  lemma ForkedApart()
    ensures OneFrameEach(ForkedCopy().dc) && PagesApart(ForkedCopy())
  {
    var cp := ForkedCopy();
    forall k | k in cp.pg
      ensures 8 <= cp.pg[k] && k == (At(Zeroth(), 0), cp.pg[k] - 8)
    {
    }
    assert forall x :: x in cp.dc ==> cp.dc[x] < 8;
  }

  lemma ForkedUsed(e: Pte, f: nat)
    requires 4 <= f < 520
    ensures NewFrame(OneLeaf(520, e), Forked(e), f) && Used(ForkedCopy(), f)
  {
    assert |OneLeaf(520, e).used| == |Forked(e).m| == 520;
    if f >= 8 {
      ForkedPage(f - 8);
    } else {
      assert ForkedCopy().dc[At(Zeroth(), 7 - f)] == f;
    }
  }

  lemma ForkedBuilding(e: Pte)
    ensures Building(OneLeaf(520, e), Forked(e), ForkedCopy())
  {
    ForkedKept(e);
    ForkedApart();
    var s0, s, cp := OneLeaf(520, e), Forked(e), ForkedCopy();
    assert |s.used| == |s0.used| == 520 && forall f :: 0 <= f < 4 ==> s0.used[f];
    assert forall x :: x in cp.dc ==> 4 <= cp.dc[x] < 520;
    assert forall k :: k in cp.pg ==> 4 <= cp.pg[k] < 520;
    hide OneLeaf, Forked, ForkedCopy, AllKept, Sane, NewFrame, Used, OneFrameEach, PagesApart;
    forall f: nat | 4 <= f < 520
      ensures NewFrame(s0, s, f) && Used(cp, f)
    {
      ForkedUsed(e, f);
    }
  }

  lemma ForkedEntry(e: Pte, x: Pos, i: nat)
    requires x in ForkedCopy().dc && i < 512
    ensures Entry(Forked(e).m, ForkedCopy().dc, x, i) ==
            if x.Level() == 0 then SplitLink(e, 8 + i) else if i > 0 then ZERO
            else if x.Level() == 3 then CopyLink(LinkTo(2, true), 5)
            else if x.Level() == 2 then CopyLink(LinkTo(3, true), 6) else SplitLink(e, 7)
  {
  }

  lemma ForkedBig(e: Pte)
    requires e.frame == 1024
    ensures BigCopied(OneLeaf(520, e), Forked(e), ForkedCopy(), At(Zeroth(), 0), e, 512, true)
  {
    var c := At(Zeroth(), 0);
    forall j: nat | j < 512
      ensures BigPage(OneLeaf(520, e), Forked(e), ForkedCopy(), c, e, j, true)
    {
      ForkedPage(j);
      ForkedEntry(e, c, j);
      assert |Forked(e).data| == |OneLeaf(520, e).data| == 520;
    }
  }

  lemma ForkedOk(pcd: bool, nx: bool, x: Pos, i: nat)
    requires x in OneDir() && i < 512
    ensures var e := BigLeaf(pcd, nx); CopyOk(OneLeaf(520, e), OneDir(), Forked(e), ForkedCopy(), x, i, true)
  {
    var e := BigLeaf(pcd, nx);
    OneEntry(520, e, x, i);
    ForkedEntry(e, x, i);
    ForkedBig(e);
    assert At(Zeroth(), 2) == Child(At(Zeroth(), 3), 0) && At(Zeroth(), 1) == Child(At(Zeroth(), 2), 0);
    assert At(Zeroth(), 0) == Child(At(Zeroth(), 1), 0);
    hide OneLeaf, Forked, BigCopied, Entry;
  }

  lemma ForkedPlanned(pcd: bool, nx: bool)
    ensures Planned(OneLeaf(520, BigLeaf(pcd, nx)), OneDir(), ForkedCopy())
  {
    hide OneLeaf;
    var e, v := BigLeaf(pcd, nx), Zeroth();
    var s0, c := OneLeaf(520, e), At(v, 0);
    OneEntry(520, e, At(v, 1), 0);
    assert c == Child(At(v, 1), 0) && c !in OneDir();
    assert UserBig(s0, OneDir(), At(v, 1), 0);
    hide UserBig, Entry;
    assert NeedTable(s0, OneDir(), c) && forall j: nat :: j < 512 ==> NeedPage(s0, OneDir(), (c, j));
  }

  /** Put together from its parts. */
  lemma CompleteIs(s0: Sys, dp: Dir, s: Sys, cp: Copy)
    requires Sane(s0) && Space(s0.m, dp) && Owned(s0, dp) && Building(s0, s, cp) && Planned(s0, dp, cp) && Top in cp.dc
    requires forall x, i :: x in dp && 0 <= x.Level() <= 3 && 0 <= i < 512 ==> CopyOk(s0, dp, s, cp, x, i, true)
    ensures Complete(s0, dp, s, cp)
  {
    hide Sane, Space, Owned, Building, Planned, CopyOk, Under;
  }

  lemma ForkedComplete(pcd: bool)
    ensures var e := BigLeaf(pcd, true); Complete(OneLeaf(520, e), OneDir(), Forked(e), ForkedCopy())
  {
    assert Top in ForkedCopy().dc;
    hide *;
    var e := BigLeaf(pcd, true);
    var s0, s, cp := OneLeaf(520, e), Forked(e), ForkedCopy();
    OneSpace(520, pcd, true);
    ForkedBuilding(e);
    ForkedPlanned(pcd, true);
    forall x, i | x in OneDir() && 0 <= x.Level() <= 3 && 0 <= i < 512
      ensures CopyOk(s0, OneDir(), s, cp, x, i, true)
    {
      ForkedOk(pcd, true, x, i);
    }
    CompleteIs(s0, OneDir(), s, cp);
  }

  /** There are exactly as many free frames as the fork needs, so it is complete; page 0 of what it leaves is
      without NX. */
  lemma ForkLosesNx(pcd: bool)
    ensures var e := BigLeaf(pcd, true);
            && Frees(OneLeaf(520, e)) == Need(OneLeaf(520, e).m, OneDir(), Top)
            && Complete(OneLeaf(520, e), OneDir(), Forked(e), ForkedCopy())
            && LeafOf(OneLeaf(520, e).m, OneDir(), Zeroth()) == e
            && !SameFlags(LeafOf(Forked(e).m, ForkedCopy().dc, Zeroth()), e)
  {
    var e := BigLeaf(pcd, true);
    assert e.p && e.u && e.nx;
    hide *;
    OneNeed(520, pcd, true);
    OneSpace(520, pcd, true);
    ForkedComplete(pcd);
    CopiedFlags(OneLeaf(520, e), OneDir(), Forked(e), ForkedCopy(), Zeroth());
  }

  // ----- a fork that shares a table -----

  /** What a fork leaves when frame 4 is the last one: it becomes the PML4, there is none for a PDPT, and the one
      slot in use leads to the parent's. */
  function LastFrame(e: Pte): Sys
  {
    Sys(OneLeaf(5, e).m[4 := Only(LinkTo(2, true))], OneLeaf(5, e).data, seq(5, _ => true),
        seq(5, (f: nat) => if f == 0 then 0 else 1))
  }

  function OnlyTop(): Copy
  {
    Copy(map[Top := 4], map[])
  }

  lemma LastBuilding(e: Pte)
    ensures Building(OneLeaf(5, e), LastFrame(e), OnlyTop())
  {
    var s0, s, cp := OneLeaf(5, e), LastFrame(e), OnlyTop();
    forall f | 0 <= f < |s0.used| && s0.used[f]
      ensures FrameKept(s0, s, f)
    {
    }
    assert cp.dc[Top] == 4 && Used(cp, 4);
    hide Only, OneTable;
  }

  lemma LastOk(pcd: bool, nx: bool, i: nat)
    requires i < 512
    ensures var e := BigLeaf(pcd, nx); CopyOk(OneLeaf(5, e), OneDir(), LastFrame(e), OnlyTop(), Top, i, false)
  {
    var e := BigLeaf(pcd, nx);
    OneEntry(5, e, Top, i);
    assert Entry(LastFrame(e).m, OnlyTop().dc, Top, i) == if i == 0 then LinkTo(2, true) else ZERO;
    hide OneLeaf, LastFrame, Entry;
  }

  lemma LastPlanned(pcd: bool, nx: bool)
    ensures Planned(OneLeaf(5, BigLeaf(pcd, nx)), OneDir(), OnlyTop())
  {
    hide OneLeaf;
  }

  /** The PML4 is the only table. */
  lemma PartialIs(s0: Sys, dp: Dir, s: Sys, cp: Copy)
    requires Sane(s0) && Space(s0.m, dp) && Owned(s0, dp) && Building(s0, s, cp) && Planned(s0, dp, cp)
    requires cp.dc.Keys == {Top} && forall i :: 0 <= i < 512 ==> CopyOk(s0, dp, s, cp, Top, i, false)
    ensures Partial(s0, dp, s, cp)
  {
    hide Sane, Space, Owned, Building, Planned, CopyOk, Under;
    assert forall y :: y in cp.dc ==> y in cp.dc.Keys;
  }

  lemma LastPartial(pcd: bool, nx: bool)
    ensures var e := BigLeaf(pcd, nx); Partial(OneLeaf(5, e), OneDir(), LastFrame(e), OnlyTop())
  {
    assert OnlyTop().dc.Keys == {Top};
    hide *;
    var e := BigLeaf(pcd, nx);
    OneSpace(5, pcd, nx);
    LastBuilding(e);
    LastPlanned(pcd, nx);
    forall i | 0 <= i < 512
      ensures CopyOk(OneLeaf(5, e), OneDir(), LastFrame(e), OnlyTop(), Top, i, false)
    {
      LastOk(pcd, nx, i);
    }
    PartialIs(OneLeaf(5, e), OneDir(), LastFrame(e), OnlyTop());
  }

  lemma FirstSlot()
    ensures At(Zeroth(), 2) == Child(Top, 0) && Child(Top, 0) in OneDir()
  {
  }

  /** One frame is free. That state is what a fork may leave, and whatever it leaves, the slot of page 0 is
      shared. */
  lemma ForkShares(pcd: bool, nx: bool, s: Sys, cp: Copy, child: nat, full: bool, left: nat)
    ensures var e := BigLeaf(pcd, nx);
            && Frees(OneLeaf(5, e)) == 1 && Partial(OneLeaf(5, e), OneDir(), LastFrame(e), OnlyTop())
            && (GetsFrames(OneLeaf(5, e), OneDir(), s, cp, child, full, 1, left) ==>
                 && child != 0 && !full && Shared(OneDir(), cp, At(Zeroth(), 2))
                 && !Separate(OneLeaf(5, e), OneDir(), s, cp))
  {
    hide *;
    var e := BigLeaf(pcd, nx);
    FirstSlot();
    LastPartial(pcd, nx);
    OneNeed(5, pcd, nx);
    if GetsFrames(OneLeaf(5, e), OneDir(), s, cp, child, full, 1, left) {
      GetsFacts(OneLeaf(5, e), OneDir(), s, cp, child, full, 1, left, 0);
    }
  }
}
