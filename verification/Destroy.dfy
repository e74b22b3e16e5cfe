/** vmm_destroy_address_space (kernel/mm/vmm.c). */
module Destroy {
  import opened PageTables
  import opened VmSpec
  import opened Vm
  import opened VmDestroy

  /** A 4 KiB leaf: a user page is let go of, and the entry cleared. */
  method DropLeaf(k: Machine, e: Pte, t: nat, i: nat) returns (ghost leaves: set<nat>)
    requires k.Valid() && t < |k.ram.m| && i < 512
    modifies k.Repr()
    ensures k.Valid() && Erased(old(k.S()), k.S(), {}, leaves) && OneEntry(old(k.ram.m), k.ram.m, t, i)
    ensures leaves == if e.u && e.frame < |k.ram.m| then {e.frame} else {}
  {
    hide Erased;
    ErasedNothing(k.S(), t, i);
    ErasedLeaf(k.S(), t, i, e.frame);
    if e.u { k.DerefFrame(e.frame); }
    k.ram.Write(t, i, ZERO);
    leaves := if e.u && e.frame < |k.ram.m| then {e.frame} else {};
  }

  /** One entry of destroy_level. */
  method DestroyEntry(k: Machine, t: nat, l: Level, i: nat, ghost x: Pos, ghost s0: Sys, ghost d: Dir, ghost s: Sys)
    requires k.Valid() && MayDestroy(s0, d) && Erasing(s0, d, s, k.S(), x, i) && i < 512
    requires d[x] == t && x.Level() == l
    modifies k.Repr()
    ensures k.Valid() && Erasing(s0, d, s, k.S(), x, i + 1)
    decreases l, 0
  {
    hide MayDestroy, Erasing, Erased, Gone, Intact, MemKept;
    ghost var s1 := k.S();
    ErasingEntry(s0, d, s, s1, x, i);
    var e := k.ram.Read(t, i);
    if !e.p || (l > 0 && e.ps) {
      ErasedNothing(s1, t, i);
      if e.p { k.ram.Write(t, i, ZERO); }
      ErasingLeaf(s0, d, s, s1, k.S(), x, i, {});
    } else if l == 0 {
      ghost var l2 := DropLeaf(k, e, t, i);
      ErasingLeaf(s0, d, s, s1, k.S(), x, i, l2);
    } else {
      BelowIntact(s0, d, s, s1, x, i);
      DestroyLevel(k, e.frame, l - 1, Child(x, i), s0, d);
      ErasingLink(s0, d, s, s1, k.S(), k.S().WithMem(Poke(k.S().m, t, i, ZERO)), x, i);
      k.ram.Write(t, i, ZERO);
    }
  }

  /** destroy_level: the table `t` and every table below it is freed, every user 4 KiB leaf in them
      let go of once. */
  method DestroyLevel(k: Machine, t: nat, l: Level, ghost x: Pos, ghost s0: Sys, ghost d: Dir)
    requires k.Valid() && MayDestroy(s0, d) && x in d && Intact(s0.m, k.ram.m, d, x)
    requires d[x] == t && x.Level() == l
    modifies k.Repr()
    ensures k.Valid() && Gone(s0, d, old(k.S()), k.S(), x)
    decreases l, 1
  {
    hide MayDestroy, Erasing, Gone, Intact;
    ghost var s := k.S();
    ErasingStart(s0, d, s, x);
    var i := 0;
    while i < 512
      invariant i <= 512 && k.Valid() && Erasing(s0, d, s, k.S(), x, i)
    {
      DestroyEntry(k, t, l, i, x, s0, d, s);
      i := i + 1;
    }
    ErasingEnd(s0, d, s, k.S(), x);
    k.FreeFrame(t);
  }
}
