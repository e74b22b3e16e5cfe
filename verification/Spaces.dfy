/** Whole address spaces: fork, the kernel template's clone, and taking a space down
    (kernel/mm/vmm.c). */
module Spaces {
  import opened PageTables
  import opened Pmm
  import opened VmSpec
  import opened Vm
  import opened VmFork
  import opened VmChild
  import opened VmCopy
  import opened VmNeed
  import opened VmDestroy
  import opened VmLife
  import opened Fork
  import opened Destroy

  /** vmm_copy_user_page_tables. `full` says that no allocation failed. */
  method ForkSpace(k: Machine, parent: nat, ghost dp: Dir) returns (child: nat, ghost full: bool, ghost cp: Copy)
    requires k.Valid() && Space(k.ram.m, dp) && Owned(k.S(), dp) && dp[Top] == parent
    modifies k.Repr()
    ensures k.Valid() && Copying(old(k.S()), dp, k.S(), cp)
    ensures full ==> child != 0 && Complete(old(k.S()), dp, k.S(), cp)
    ensures child != 0 ==> Partial(old(k.S()), dp, k.S(), cp) && cp.dc[Top] == child
    ensures child == 0 ==> k.S() == old(k.S())
    ensures GetsFrames(old(k.S()), dp, k.S(), cp, child, full, old(k.pmm.free), k.pmm.free)
  {
    NothingCopied(k.S(), dp);
    k.CountIsFree();
    ghost var cp0 := Copy(map[], map[]);
    hide Copying, LevelStep, LevelDone, Space, Owned, Partial, Got, Need, FreeCount,
         GetsFrames;
    child, full, cp := CopyLevel(k, parent, 3, Top, k.S(), dp, cp0);
    StepIsCopying(old(k.S()), dp, old(k.S()), cp0, k.S(), cp, Top);
    if full { IsPartial(old(k.S()), dp, k.S(), cp); }
    GetsIs(old(k.S()), dp, k.S(), cp, child, full);
    k.CountIsFree();
  }

  /** vmm_clone_kernel_pml4. */
  method CloneSpace(k: Machine, kernel: nat, ghost dk: Dir) returns (child: nat, ghost full: bool, ghost cp: Copy)
    requires k.Valid() && Space(k.ram.m, dk) && Owned(k.S(), dk) && dk[Top] == kernel && KernelOnly(k.S(), dk)
    modifies k.Repr()
    ensures k.Valid() && Copying(old(k.S()), dk, k.S(), cp)
    ensures full ==> child != 0 && Complete(old(k.S()), dk, k.S(), cp)
    ensures child != 0 ==> Partial(old(k.S()), dk, k.S(), cp) && cp.dc[Top] == child
    ensures child == 0 ==> k.S() == old(k.S())
    ensures GetsFrames(old(k.S()), dk, k.S(), cp, child, full, old(k.pmm.free), k.pmm.free)
  {
    NothingCopied(k.S(), dk);
    k.CountIsFree();
    ghost var cp0 := Copy(map[], map[]);
    hide Copying, LevelStep, LevelDone, Space, Owned, KernelOnly, Partial, Got, Need, FreeCount,
         GetsFrames;
    child, full, cp := CloneLevel(k, kernel, 3, Top, k.S(), dk, cp0);
    StepIsCopying(old(k.S()), dk, old(k.S()), cp0, k.S(), cp, Top);
    if full { IsPartial(old(k.S()), dk, k.S(), cp); }
    GetsIs(old(k.S()), dk, k.S(), cp, child, full);
    k.CountIsFree();
  }

  lemma NothingCopied(s: Sys, dp: Dir)
    requires Sane(s) && Space(s.m, dp) && Owned(s, dp)
    ensures Top in dp && Copying(s, dp, s, Copy(map[], map[])) && Clear(Copy(map[], map[]), Top)
  {
  }

  lemma StepIsCopying(s0: Sys, dp: Dir, s: Sys, cp: Copy, s1: Sys, cp1: Copy, x: Pos)
    requires LevelStep(s0, dp, s, cp, s1, cp1, x)
    ensures Copying(s0, dp, s1, cp1)
  {
  }

  /** vmm_destroy_address_space: the kernel template and a null PML4 are left alone. */
  method DestroySpace(k: Machine, pml4: nat, kernel: nat, ghost d: Dir)
    requires k.Valid() && (pml4 != 0 && pml4 != kernel ==> MayDestroy(k.S(), d) && Top in d && d[Top] == pml4)
    modifies k.Repr()
    ensures k.Valid()
    ensures pml4 == 0 || pml4 == kernel ==> k.S() == old(k.S())
    ensures pml4 != 0 && pml4 != kernel ==> Gone(old(k.S()), d, old(k.S()), k.S(), Top)
  {
    if pml4 == 0 || pml4 == kernel { return; }
    AllIntact(k.S(), d);
    hide MayDestroy, Gone, Intact;
    DestroyLevel(k, pml4, 3, Top, k.S(), d);
  }

  lemma AllIntact(s: Sys, d: Dir)
    requires MayDestroy(s, d)
    ensures Intact(s.m, s.m, d, Top)
  {
  }

  /** A copy forked or cloned in state `s0`, complete or at least sharing nothing, taken down again: bitmap and
      free count are what they were in `s0`, and every frame in use then is untouched. */
  method DestroyCopy(k: Machine, child: nat, kernel: nat, ghost s0: Sys, ghost dp: Dir, ghost cp: Copy)
    requires k.Valid() && Separate(s0, dp, k.S(), cp) && Top in cp.dc && cp.dc[Top] == child
    requires kernel < |s0.used| && s0.used[kernel]
    modifies k.Repr()
    ensures k.Valid() && AsBefore(s0, k.S())
    ensures k.pmm.used == s0.used && k.pmm.free == FreeCount(s0.used)
  {
    hide Separate, MayDestroy, Gone;
    NewRoot(s0, dp, k.S(), cp, kernel);
    CopyMayGo(s0, dp, k.S(), cp);
    ghost var s := k.S();
    DestroySpace(k, child, kernel, cp.dc);
    CopyThenGone(s0, dp, s, cp, k.S());
    k.CountIsFree();
  }

  lemma NewRoot(s0: Sys, dp: Dir, s: Sys, cp: Copy, kernel: nat)
    requires Separate(s0, dp, s, cp) && Top in cp.dc && kernel < |s0.used| && s0.used[kernel]
    ensures cp.dc[Top] != 0 && cp.dc[Top] != kernel
  {
    assert NewFrame(s0, s, cp.dc[Top]);
  }
}
