/** How many frames a copy of an address space takes, and what it gets of them (kernel/mm/vmm.c). */
module VmNeed {
  import opened PageTables
  import opened Pmm
  import opened VmSpec
  import opened VmFork
  import opened VmChild

  /** The frames that copying entry (x, i) takes: a page for a user leaf, a table and 512 pages for a user 2 MiB
      leaf, everything below for a link. */
  function EntryNeed(m: Mem, d: Dir, x: Pos, i: nat): nat
    requires 0 <= x.Level() <= 3
    decreases x.Level(), 0
  {
    var e := Entry(m, d, x, i);
    if !e.p then 0
    else if IsLink(e, x.Level()) then Need(m, d, Child(x, i))
    else if !e.u || x.Level() == 2 then 0
    else if x.Level() == 0 then 1
    else 513
  }

  /** The frames for the table at `x` and its first `n` entries. */
  function NeedTo(m: Mem, d: Dir, x: Pos, n: nat): (r: nat)
    requires 0 <= x.Level() <= 3
    ensures r > 0
    decreases x.Level(), 1, n
  {
    if n == 0 then 1 else NeedTo(m, d, x, n - 1) + EntryNeed(m, d, x, n - 1)
  }

  /** The frames for the table at `x` and everything below it. */
  function Need(m: Mem, d: Dir, x: Pos): (r: nat)
    requires 0 <= x.Level() <= 3
    ensures r > 0
    decreases x.Level(), 2
  {
    NeedTo(m, d, x, 512)
  }

  /** Of `a` free frames, `b` are left by a step that takes `need` if it can get them and all there are if not. */
  predicate Spends(a: nat, need: nat, b: nat, full: bool)
  {
    (full <==> a >= need) && b == if a >= need then a - need else 0
  }

  lemma SpendsBoth(a: nat, n1: nat, b: nat, f1: bool, n2: nat, c: nat, f2: bool)
    requires Spends(a, n1, b, f1) && Spends(b, n2, c, f2)
    ensures Spends(a, n1 + n2, c, f1 && f2)
  {
  }

  /** The free frames of a state. */
  function Frees(s: Sys): nat
  {
    FreeCount(s.used)
  }

  lemma TakeSpends(s: Sys, f: nat, s': Sys)
    requires Fresh(s, f) && s'.used == s.used[f := true]
    ensures Spends(Frees(s), 1, Frees(s'), true) && Frees(s) > 0
  {
    FreeCountUpdate(s.used, f, true);
  }

  lemma NoneSpends(s: Sys)
    requires Full(s.used)
    ensures Frees(s) == 0 && forall n: nat :: n > 0 ==> Spends(Frees(s), n, Frees(s), false)
  {
    FreeCountZero(s.used);
  }

  /** Of the links of the parent's table at `x`, the first `n` got a table exactly if frames were left when their
      turn came. */
  ghost predicate Got(s0: Sys, dp: Dir, cp: Copy, x: Pos, a: nat, n: nat)
    requires 0 <= x.Level() <= 3
  {
    forall i: nat {:trigger Child(x, i)} :: i < n && IsLink(Entry(s0.m, dp, x, i), x.Level()) ==>
      (Child(x, i) in cp.dc <==> a > NeedTo(s0.m, dp, x, i))
  }

  lemma GotNone(s0: Sys, dp: Dir, cp: Copy, x: Pos, a: nat)
    requires 0 <= x.Level() <= 3
    ensures Got(s0, dp, cp, x, a, 0)
  {
  }

  lemma RoomFor(cp: Copy, x: Pos, i: nat)
    requires Room(cp, x, i)
    ensures Child(x, i) !in cp.dc
  {
    assert Under(Child(x, i), Child(x, i));
  }

  lemma GotMore(s0: Sys, dp: Dir, s1: Sys, cp1: Copy, s2: Sys, cp2: Copy, x: Pos, a: nat, n: nat, full: bool,
      here: bool)
    requires 0 <= x.Level() <= 3 && n < 512 && Got(s0, dp, cp1, x, a, n)
    requires EntryStep(s0, dp, s1, cp1, s2, cp2, x, n, here) && Spends(a, NeedTo(s0.m, dp, x, n), Frees(s1), full)
    requires IsLink(Entry(s0.m, dp, x, n), x.Level()) ==> (Child(x, n) in cp2.dc <==> Frees(s1) > 0)
    ensures Got(s0, dp, cp2, x, a, n + 1)
  {
    hide Copying, Done, NeedTo, IsLink;
    forall i: nat | i < n
      ensures Child(x, i) in cp2.dc <==> Child(x, i) in cp1.dc
    {
      assert Under(Child(x, i), Child(x, i));
      if Under(Child(x, i), Child(x, n)) { UnderOneChild(Child(x, i), x, i, n); }
    }
  }

  lemma {:induction false} SlotIn(m: Mem, d: Dir, y: Pos)
    requires Space(m, d) && y in d && y.Below?
    ensures SlotOf(y) in d && SlotOf(y).Below? && SlotOf(y) == Child(Top, SlotOf(y).slot) && SlotOf(y).slot < 512
    decreases y
  {
    if y.up.Below? { SlotIn(m, d, y.up); }
  }

  /** Slot `i` of the PML4 is shared if and only if it is in use and `a` free frames do not go beyond what the slots
      before it need; the child shares nothing if and only if no slot is. */
  lemma SharesIff(s0: Sys, dp: Dir, s: Sys, cp: Copy, a: nat)
    requires Partial(s0, dp, s, cp) && Got(s0, dp, cp, Top, a, 512)
    ensures forall i: nat :: i < 512 ==>
              (Shared(dp, cp, Child(Top, i)) <==> Child(Top, i) in dp && a <= NeedTo(s0.m, dp, Top, i))
    ensures Separate(s0, dp, s, cp) <==>
              forall i: nat :: i < 512 && Child(Top, i) in dp ==> a > NeedTo(s0.m, dp, Top, i)
  {
    ParentIs(s0, dp, s, cp);
    hide Copying, LevelDone, NeedTo;
    forall i: nat | i < 512
      ensures Shared(dp, cp, Child(Top, i)) <==> Child(Top, i) in dp && a <= NeedTo(s0.m, dp, Top, i)
    {
      assert EntryOk(s0.m, dp, Top, i);
    }
    forall y | y in dp && Shared(dp, cp, y)
      ensures Shared(dp, cp, SlotOf(y)) && SlotOf(y) == Child(Top, SlotOf(y).slot) && SlotOf(y).slot < 512
    {
      SlotIn(s0.m, dp, y);
    }
  }

  /** What a copy of the space `dp` with PML4 `child` gets of the `free` frames there were, `left` of which are left:
      it is full exactly if there were as many as it needs, has a PML4 exactly if there was one, and shares exactly
      the slots whose turn came after the last. */
  ghost predicate GetsFrames(s0: Sys, dp: Dir, s: Sys, cp: Copy, child: nat, full: bool, free: nat, left: nat)
  {
    && (full <==> free >= Need(s0.m, dp, Top)) && left == (if full then free - Need(s0.m, dp, Top) else 0)
    && (child != 0 <==> free > 0)
    && (child != 0 ==>
         && (forall i: nat :: i < 512 ==>
              (Shared(dp, cp, Child(Top, i)) <==> Child(Top, i) in dp && free <= NeedTo(s0.m, dp, Top, i)))
         && (Separate(s0, dp, s, cp) <==>
              forall i: nat :: i < 512 && Child(Top, i) in dp ==> free > NeedTo(s0.m, dp, Top, i)))
  }

  lemma GetsIs(s0: Sys, dp: Dir, s: Sys, cp: Copy, child: nat, full: bool)
    requires Spends(Frees(s0), Need(s0.m, dp, Top), Frees(s), full) && (child != 0 <==> Frees(s0) > 0)
    requires child != 0 ==> Partial(s0, dp, s, cp) && Got(s0, dp, cp, Top, Frees(s0), 512)
    ensures GetsFrames(s0, dp, s, cp, child, full, Frees(s0), Frees(s))
  {
    hide Partial, Got, Need, NeedTo, Frees, Separate, Shared;
    if child != 0 { SharesIff(s0, dp, s, cp, Frees(s0)); }
  }

  lemma GetsFacts(s0: Sys, dp: Dir, s: Sys, cp: Copy, child: nat, full: bool, free: nat, left: nat, i: nat)
    requires GetsFrames(s0, dp, s, cp, child, full, free, left) && i < 512 && Child(Top, i) in dp
    ensures (child != 0 <==> free > 0) && (full <==> free >= Need(s0.m, dp, Top))
    ensures child != 0 ==> (Shared(dp, cp, Child(Top, i)) <==> free <= NeedTo(s0.m, dp, Top, i))
    ensures child != 0 && free <= NeedTo(s0.m, dp, Top, i) ==> !Separate(s0, dp, s, cp)
  {
    hide Shared, Separate, NeedTo, Need;
  }
}
