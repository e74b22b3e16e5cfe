/** vmm_copy_user_page_tables: the child's tables built level by level (kernel/mm/vmm.c). */
module Fork {
  import opened PageTables
  import opened PhysMem
  import opened Pmm
  import opened VmSpec
  import opened Vm
  import opened VmFork
  import opened VmNeed

  /** A fresh frame with a copy of frame `from`, or 0. Device memory has no modelled contents. */
  method CopyFrame(k: Machine, from: nat) returns (f: nat, ghost b: Bytes)
    requires k.Valid()
    modifies k.Repr()
    ensures k.Valid()
    ensures f == 0 ==> k.S() == old(k.S()) && Full(old(k.pmm.used))
    ensures f != 0 ==> Fresh(old(k.S()), f) && f < |old(k.ram.data)| && k.S() == TakenWith(old(k.S()), f, b)
    ensures f != 0 && InUse(old(k.S()), from) ==> b == old(k.ram.data)[from]
    ensures Spends(Frees(old(k.S())), 1, Frees(k.S()), f != 0)
  {
    b := ZeroBytes();
    f := k.AllocFrame();
    if f != 0 {
      if from < k.ram.size && from != f {
        k.ram.CopyPage(f, from);
      }
      b := k.ram.data[f];
      TakeSpends(old(k.S()), f, k.S());
    } else {
      NoneSpends(k.S());
    }
  }

  /** A 4 KiB user leaf in entry `i` of the parent's table. */
  method CopyUserLeaf(k: Machine, e: Pte, c: nat, i: nat, ghost x: Pos, ghost s0: Sys, ghost dp: Dir, ghost cp: Copy)
    returns (ghost full: bool, ghost cp': Copy)
    requires k.Valid() && Copying(s0, dp, k.S(), cp) && x in dp && x.Level() == 0 && i < 512 && x in cp.dc &&
             cp.dc[x] == c && Room(cp, x, i)
    requires e == Entry(s0.m, dp, x, i) && e.p && e.u
    modifies k.Repr()
    ensures k.Valid() && EntryStep(s0, dp, old(k.S()), cp, k.S(), cp', x, i, full)
    ensures Spends(Frees(old(k.S())), 1, Frees(k.S()), full)
  {
    hide Copying, Room, EntryStep, Before, Ready, Full, Sane, FreeCount, Pmm.FrameAllocator.Valid, PhysMem.Ram.Valid;
    CopyingBounds(s0, dp, k.S(), cp, x);
    var f, b := CopyFrame(k, e.frame);
    if f == 0 {
      BeforeNothing(s0, dp, k.S(), cp, x, i);
      LeftOut(s0, dp, k.S(), cp, x, i);
      WriteStep(s0, dp, k.S(), cp, k.S(), cp, x, i, ZERO, false);
      k.Store(c, i, ZERO);
      return false, cp;
    }
    if InUse(s0, e.frame) { KeptContents(s0, dp, old(k.S()), cp, e.frame); }
    cp' := cp.AddPage((x, i), f);
    PageReady(s0, dp, old(k.S()), cp, x, i, f, b);
    WriteStep(s0, dp, old(k.S()), cp, k.S(), cp', x, i, CopyLeaf(e, f), true);
    k.Store(c, i, CopyLeaf(e, f));
    full := true;
  }

  /** One of the 512 pages of a user 2 MiB leaf. */
  method CopyBigPage(k: Machine, e: Pte, pt: nat, j: nat, ghost x: Pos, ghost i: nat, ghost s0: Sys, ghost dp: Dir,
                     ghost s: Sys, ghost cp: Copy, ghost cp1: Copy, ghost full: bool, ghost a: nat)
    returns (ghost full': bool, ghost cp2: Copy)
    requires k.Valid() && BigStep(s0, dp, s, cp, k.S(), cp1, x, i, j, full) && j < 512 && cp1.dc[Child(x, i)] == pt
    requires e == Entry(s0.m, dp, x, i) && Spends(a, 1 + j, Frees(k.S()), full)
    modifies k.Repr()
    ensures k.Valid() && BigStep(s0, dp, s, cp, k.S(), cp2, x, i, j + 1, full') && cp2.dc == cp1.dc
    ensures Spends(a, 2 + j, Frees(k.S()), full')
  {
    hide BigStep, Copying, Later, Before, Full, FreeCount, Sane, Pmm.FrameAllocator.Valid, PhysMem.Ram.Valid;
    ghost var s1 := k.S();
    BigFacts(s0, dp, s, cp, s1, cp1, x, i, j, full);
    if InUse(s0, e.frame + j) { KeptContents(s0, dp, s1, cp1, e.frame + j); }
    var f, b := CopyFrame(k, e.frame + j);
    SpendsBoth(a, 1 + j, Frees(s1), full, 1, Frees(k.S()), f != 0);
    if f == 0 {
      BigSkip(s0, dp, s, cp, s1, cp1, x, i, j, full);
      k.Store(pt, j, ZERO);
      return false, cp1;
    }
    BigNext(s0, dp, s, cp, s1, cp1, x, i, j, f, b, full);
    k.Store(pt, j, SplitLink(e, f));
    return full, cp1.AddPage((Child(x, i), j), f);
  }

  /** A user 2 MiB leaf in entry `i` of the parent's PD becomes a table of 512 copied pages. */
  method CopyBigLeaf(k: Machine, e: Pte, c: nat, i: nat, ghost x: Pos, ghost s0: Sys, ghost dp: Dir, ghost cp: Copy)
    returns (ghost full: bool, ghost cp': Copy)
    requires k.Valid() && Copying(s0, dp, k.S(), cp) && UserBig(s0, dp, x, i) && x in cp.dc && cp.dc[x] == c &&
             Room(cp, x, i)
    requires e == Entry(s0.m, dp, x, i)
    modifies k.Repr()
    ensures k.Valid() && EntryStep(s0, dp, old(k.S()), cp, k.S(), cp', x, i, full)
    ensures Spends(Frees(old(k.S())), 513, Frees(k.S()), full)
  {
    hide Copying, Room, EntryStep, Before, Ready, BigStep, Full, FreeCount, Sane, Pmm.FrameAllocator.Valid,
         PhysMem.Ram.Valid;
    CopyingBounds(s0, dp, k.S(), cp, x);
    ghost var s := k.S();
    full, cp' := true, cp;
    var pt := k.AllocTable();
    if pt == 0 {
      BeforeNothing(s0, dp, s, cp, x, i);
      LeftOut(s0, dp, s, cp, x, i);
      NoneSpends(s);
      WriteStep(s0, dp, s, cp, s, cp, x, i, ZERO, false);
      k.Store(c, i, ZERO);
      return false, cp;
    }
    TakeSpends(s, pt, k.S());
    BigStart(s0, dp, s, cp, x, i, pt);
    cp' := cp.AddTable(Child(x, i), pt);
    var j := 0;
    while j < 512
      invariant j <= 512 && k.Valid() && BigStep(s0, dp, s, cp, k.S(), cp', x, i, j, full)
      invariant Child(x, i) in cp'.dc && cp'.dc[Child(x, i)] == pt && Spends(Frees(s), 1 + j, Frees(k.S()), full)
    {
      full, cp' := CopyBigPage(k, e, pt, j, x, i, s0, dp, s, cp, cp', full, Frees(s));
      j := j + 1;
    }
    BigFacts(s0, dp, s, cp, k.S(), cp', x, i, 512, full);
    BigReady(s0, dp, s, cp, k.S(), cp', x, i, full);
    WriteStep(s0, dp, s, cp, k.S(), cp', x, i, SplitLink(e, pt), full);
    k.Store(c, i, SplitLink(e, pt));
  }

  /** One entry of copy_pt_level: absent entries and kernel leaves as they are, user pages copied,
      lower tables by recursion. An entry that cannot be copied for want of a frame is left out; in
      the PML4 the parent's own table is shared instead. */
  method CopyEntry(k: Machine, p: nat, c: nat, l: Level, i: nat, ghost x: Pos, ghost s0: Sys, ghost dp: Dir,
      ghost cp: Copy)
    returns (ghost full: bool, ghost cp': Copy)
    requires k.Valid() && Copying(s0, dp, k.S(), cp) && i < 512 && Room(cp, x, i)
    requires x in dp && dp[x] == p && x.Level() == l && x in cp.dc && cp.dc[x] == c
    modifies k.Repr()
    ensures k.Valid() && EntryStep(s0, dp, old(k.S()), cp, k.S(), cp', x, i, full)
    ensures Spends(Frees(old(k.S())), EntryNeed(s0.m, dp, x, i), Frees(k.S()), full)
    ensures IsLink(Entry(s0.m, dp, x, i), l) ==> (Child(x, i) in cp'.dc <==> Frees(old(k.S())) > 0)
    decreases l, 0
  {
    hide Copying, Room, EntryStep, Before, Ready, LevelStep, LevelDone, Full, FreeCount, Need, Got, Sane,
         Pmm.FrameAllocator.Valid;
    ghost var s := k.S();
    CopyingBounds(s0, dp, s, cp, x);
    ParentKept(s0, dp, s, cp, x, i);
    var e := k.ram.Read(p, i);
    full, cp' := true, cp;
    if !e.p || (IsLeaf(e, l) && (!e.u || l == 2)) {
      BeforeNothing(s0, dp, s, cp, x, i);
      PlainReady(s0, dp, s, cp, x, i);
      WriteStep(s0, dp, s, cp, s, cp, x, i, if e.p then e else ZERO, true);
      k.Store(c, i, if e.p then e else ZERO);
    } else if l == 0 {
      full, cp' := CopyUserLeaf(k, e, c, i, x, s0, dp, cp);
    } else if IsLeaf(e, l) {
      full, cp' := CopyBigLeaf(k, e, c, i, x, s0, dp, cp);
    } else {
      LinkBelow(s0, dp, s, cp, x, i);
      var t;
      t, full, cp' := CopyLevel(k, e.frame, l - 1, Child(x, i), s0, dp, cp);
      var ce := if t != 0 then CopyLink(e, t) else if l == 3 then e else ZERO;
      if t != 0 {
        LinkReady(s0, dp, s, cp, k.S(), cp', x, i, ce, full);
      } else {
        BeforeNothing(s0, dp, s, cp, x, i);
        LinkLeftOut(s0, dp, s, cp, x, i);
        RoomFor(cp, x, i);
      }
      WriteStep(s0, dp, s, cp, k.S(), cp', x, i, ce, full);
      k.Store(c, i, ce);
    }
  }

  /** copy_pt_level, and at level 3 the loop of vmm_copy_user_page_tables: a copy of the table `p`
      and everything below it in frames that were free. Returns 0 with no frame left. */
  method CopyLevel(k: Machine, p: nat, l: Level, ghost x: Pos, ghost s0: Sys, ghost dp: Dir, ghost cp: Copy)
    returns (c: nat, ghost full: bool, ghost cp': Copy)
    requires k.Valid() && Copying(s0, dp, k.S(), cp) && Clear(cp, x)
    requires x in dp && dp[x] == p && x.Level() == l && (x.Below? ==> x.up in cp.dc)
    modifies k.Repr()
    ensures k.Valid() && LevelStep(s0, dp, old(k.S()), cp, k.S(), cp', x)
    ensures c != 0 ==> LevelDone(s0, dp, k.S(), cp', x, full) && x in cp'.dc && cp'.dc[x] == c
    ensures c == 0 ==> !full && k.S() == old(k.S()) && cp' == cp
    ensures Spends(Frees(old(k.S())), Need(s0.m, dp, x), Frees(k.S()), full) && (c != 0 <==> Frees(old(k.S())) > 0)
    ensures c != 0 ==> Got(s0, dp, cp', x, Frees(old(k.S())), 512)
    decreases l, 1
  {
    hide Copying, Clear, Room, EntryStep, LevelStep, LevelDone, LevelInv, Full, FreeCount, EntryNeed, Got;
    ghost var s := k.S();
    full, cp' := false, cp;
    c := k.AllocTable();
    if c == 0 {
      LevelNothing(s0, dp, s, cp, x);
      NoneSpends(s);
      return;
    }
    TakeSpends(s, c, k.S());
    GotNone(s0, dp, cp.AddTable(x, c), x, Frees(s));
    LevelStart(s0, dp, s, cp, x, c);
    full, cp' := true, cp.AddTable(x, c);
    var i := 0;
    while i < 512
      invariant i <= 512 && k.Valid() && LevelInv(s0, dp, s, cp, k.S(), cp', x, i, full)
      invariant x in cp'.dc && cp'.dc[x] == c && Spends(Frees(s), NeedTo(s0.m, dp, x, i), Frees(k.S()), full)
      invariant Got(s0, dp, cp', x, Frees(s), i)
    {
      ghost var s1, cp1 := k.S(), cp';
      LevelFacts(s0, dp, s, cp, s1, cp1, x, i, full);
      ghost var here;
      here, cp' := CopyEntry(k, p, c, l, i, x, s0, dp, cp1);
      LevelNext(s0, dp, s, cp, s1, cp1, k.S(), cp', x, i, full, here);
      EntryFacts(s0, dp, s1, cp1, k.S(), cp', x, i, here);
      GotMore(s0, dp, s1, cp1, k.S(), cp', x, Frees(s), i, full, here);
      SpendsBoth(Frees(s), NeedTo(s0.m, dp, x, i), Frees(s1), full, EntryNeed(s0.m, dp, x, i), Frees(k.S()), here);
      full := full && here;
      i := i + 1;
    }
    LevelFacts(s0, dp, s, cp, k.S(), cp', x, 512, full);
    LevelEnd(s0, dp, s, cp, k.S(), cp', x, full);
  }

  // ----- the kernel template -----

  /** One entry of clone_kernel_level, and at level 3 of vmm_clone_kernel_pml4: leaves are shared. */
  method CloneEntry(k: Machine, p: nat, c: nat, l: Level, i: nat, ghost x: Pos, ghost s0: Sys, ghost dp: Dir,
      ghost cp: Copy)
    returns (ghost full: bool, ghost cp': Copy)
    requires k.Valid() && Copying(s0, dp, k.S(), cp) && KernelOnly(s0, dp) && i < 512 && Room(cp, x, i)
    requires x in dp && dp[x] == p && x.Level() == l && x in cp.dc && cp.dc[x] == c
    modifies k.Repr()
    ensures k.Valid() && EntryStep(s0, dp, old(k.S()), cp, k.S(), cp', x, i, full)
    ensures Spends(Frees(old(k.S())), EntryNeed(s0.m, dp, x, i), Frees(k.S()), full)
    ensures IsLink(Entry(s0.m, dp, x, i), l) ==> (Child(x, i) in cp'.dc <==> Frees(old(k.S())) > 0)
    decreases l, 0
  {
    hide Copying, Room, EntryStep, Before, Ready, LevelStep, LevelDone, Full, FreeCount, Need, Got, Sane,
         Pmm.FrameAllocator.Valid;
    ghost var s := k.S();
    CopyingBounds(s0, dp, s, cp, x);
    ParentKept(s0, dp, s, cp, x, i);
    var e := k.ram.Read(p, i);
    full, cp' := true, cp;
    if !e.p || l == 0 || ((l == 1 || l == 2) && e.ps) {
      BeforeNothing(s0, dp, s, cp, x, i);
      PlainReady(s0, dp, s, cp, x, i);
      WriteStep(s0, dp, s, cp, s, cp, x, i, if e.p then e else ZERO, true);
      k.Store(c, i, if e.p then e else ZERO);
    } else {
      LinkBelow(s0, dp, s, cp, x, i);
      var t;
      t, full, cp' := CloneLevel(k, e.frame, l - 1, Child(x, i), s0, dp, cp);
      var ce := if t == 0 then (if l == 3 then e else ZERO) else if l == 3 then LinkTo(t, false) else CopyLink(e, t);
      if t != 0 {
        LinkReady(s0, dp, s, cp, k.S(), cp', x, i, ce, full);
      } else {
        BeforeNothing(s0, dp, s, cp, x, i);
        LinkLeftOut(s0, dp, s, cp, x, i);
        RoomFor(cp, x, i);
      }
      WriteStep(s0, dp, s, cp, k.S(), cp', x, i, ce, full);
      k.Store(c, i, ce);
    }
  }

  /** clone_kernel_level, and at level 3 the loop of vmm_clone_kernel_pml4. */
  method CloneLevel(k: Machine, p: nat, l: Level, ghost x: Pos, ghost s0: Sys, ghost dp: Dir, ghost cp: Copy)
    returns (c: nat, ghost full: bool, ghost cp': Copy)
    requires k.Valid() && Copying(s0, dp, k.S(), cp) && KernelOnly(s0, dp) && Clear(cp, x)
    requires x in dp && dp[x] == p && x.Level() == l && (x.Below? ==> x.up in cp.dc)
    modifies k.Repr()
    ensures k.Valid() && LevelStep(s0, dp, old(k.S()), cp, k.S(), cp', x)
    ensures c != 0 ==> LevelDone(s0, dp, k.S(), cp', x, full) && x in cp'.dc && cp'.dc[x] == c
    ensures c == 0 ==> !full && k.S() == old(k.S()) && cp' == cp
    ensures Spends(Frees(old(k.S())), Need(s0.m, dp, x), Frees(k.S()), full) && (c != 0 <==> Frees(old(k.S())) > 0)
    ensures c != 0 ==> Got(s0, dp, cp', x, Frees(old(k.S())), 512)
    decreases l, 1
  {
    hide Copying, Clear, Room, EntryStep, KernelOnly, LevelStep, LevelDone, LevelInv, Full, FreeCount, EntryNeed, Got;
    ghost var s := k.S();
    full, cp' := false, cp;
    c := k.AllocTable();
    if c == 0 {
      LevelNothing(s0, dp, s, cp, x);
      NoneSpends(s);
      return;
    }
    TakeSpends(s, c, k.S());
    GotNone(s0, dp, cp.AddTable(x, c), x, Frees(s));
    LevelStart(s0, dp, s, cp, x, c);
    full, cp' := true, cp.AddTable(x, c);
    var i := 0;
    while i < 512
      invariant i <= 512 && k.Valid() && LevelInv(s0, dp, s, cp, k.S(), cp', x, i, full)
      invariant x in cp'.dc && cp'.dc[x] == c && Spends(Frees(s), NeedTo(s0.m, dp, x, i), Frees(k.S()), full)
      invariant Got(s0, dp, cp', x, Frees(s), i)
    {
      ghost var s1, cp1 := k.S(), cp';
      LevelFacts(s0, dp, s, cp, s1, cp1, x, i, full);
      ghost var here;
      here, cp' := CloneEntry(k, p, c, l, i, x, s0, dp, cp1);
      LevelNext(s0, dp, s, cp, s1, cp1, k.S(), cp', x, i, full, here);
      EntryFacts(s0, dp, s1, cp1, k.S(), cp', x, i, here);
      GotMore(s0, dp, s1, cp1, k.S(), cp', x, Frees(s), i, full, here);
      SpendsBoth(Frees(s), NeedTo(s0.m, dp, x, i), Frees(s1), full, EntryNeed(s0.m, dp, x, i), Frees(k.S()), here);
      full := full && here;
      i := i + 1;
    }
    LevelFacts(s0, dp, s, cp, k.S(), cp', x, 512, full);
    LevelEnd(s0, dp, s, cp, k.S(), cp', x, full);
  }
}
