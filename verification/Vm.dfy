/** The kernel's page-table operations over physical memory and the frame allocator
    (kernel/arch/x86_64/paging.c, kernel/mm/vmm.c). */
module Vm {
  import opened Tiny
  import opened PageTables
  import opened PhysMem
  import opened Pmm
  import opened VmSpec
  import opened VmRange

  class Machine {
    const ram: Ram
    const pmm: FrameAllocator
    var root: nat  // g_pml4

    constructor (ram: Ram, pmm: FrameAllocator)
      ensures this.ram == ram && this.pmm == pmm && root == 0
    {
      this.ram, this.pmm, root := ram, pmm, 0;
    }

    ghost predicate Valid()
      reads this, ram, ram.tabs, ram.bytes, pmm, pmm.bitmap, pmm.refs
    {
      && ram.Valid() && pmm.Valid() && ram.size == pmm.total
      && pmm.bitmap as object != ram.tabs as object && pmm.bitmap as object != ram.bytes as object
      && pmm.refs as object != ram.tabs as object && pmm.refs as object != ram.bytes as object
      && Sane(S()) && |ram.m| == ram.size <= FRAMES && this !in Repr()
    }

    ghost function S(): Sys
      reads ram, pmm, pmm.refs
    {
      Sys(ram.m, ram.data, pmm.used, pmm.refs[..])
    }

    ghost function Repr(): set<object>
    {
      {ram, ram.tabs, ram.bytes, pmm, pmm.bitmap, pmm.refs}
    }

    /** One table entry written. */
    method Store(t: nat, i: nat, e: Pte)
      requires Valid() && t < |ram.m| && i < 512
      modifies ram, ram.tabs
      ensures Valid() && S() == old(S()).WithMem(Poke(old(ram.m), t, i, e))
    {
      ram.Write(t, i, e);
    }

    /** pmm_alloc_page. */
    method AllocFrame() returns (f: nat)
      requires Valid()
      modifies pmm, pmm.bitmap, pmm.refs
      ensures Valid()
      ensures f == 0 ==> S() == old(S()) && Full(old(pmm.used))
      ensures f != 0 ==> Fresh(old(S()), f)
                         && S() == old(S()).Take(f)
    {
      f := pmm.AllocPage();
      assert forall q :: 0 <= q < pmm.total ==> pmm.refs[q] == pmm.refs[..][q];
    }

    /** alloc_table: a zeroed table in a fresh frame, or 0. */
    method AllocTable() returns (f: nat)
      requires Valid()
      modifies Repr()
      ensures Valid()
      ensures f == 0 ==> S() == old(S()) && Full(old(pmm.used))
      ensures f != 0 ==> Fresh(old(S()), f)
                         && S() == Taken(old(S()), f, EmptyTable())
    {
      f := AllocFrame();
      if f != 0 {
        ram.ZeroTable(f);
      }
    }

    /** The table that replaces a 2 MiB leaf. */
    method FillSplit(t: nat, big: Pte)
      requires Valid() && t < |ram.m|
      modifies ram, ram.tabs
      ensures Valid() && S() == old(S()).WithMem(old(ram.m)[t := SplitTable(big)])
    {
      var j := 0;
      while j < 512
        invariant j <= 512 && Valid()
        invariant S() == old(S()).WithMem(old(ram.m)[t := ram.m[t]])
        invariant forall k :: 0 <= k < j ==> ram.m[t][k] == SplitLeaf(big, k)
      {
        ram.Write(t, j, SplitLeaf(big, j));
        j := j + 1;
      }
      assert ram.m[t] == SplitTable(big);
    }

    /** Links a zeroed table in a fresh frame into entry `i` of table `t`. */
    method LinkNew(t: nat, i: nat, user: bool) returns (c: nat)
      requires Valid() && t < |ram.m| && i < 512 && pmm.used[t]
      modifies Repr()
      ensures Valid()
      ensures c == 0 ==> S() == old(S()) && Full(old(pmm.used))
      ensures c != 0 ==> Fresh(old(S()), c) && S() == Linked(old(S()), t, i, c, EmptyTable(), user)
    {
      c := AllocTable();
      if c != 0 {
        ram.Write(t, i, LinkTo(c, user));
      }
    }

    /** Replaces the 2 MiB leaf `big` in entry `i` of table `t` by a table of 512 leaves. */
    method LinkSplit(t: nat, i: nat, big: Pte, user: bool) returns (c: nat)
      requires Valid() && t < |ram.m| && i < 512 && pmm.used[t]
      modifies Repr()
      ensures Valid()
      ensures c == 0 ==> S() == old(S()) && Full(old(pmm.used))
      ensures c != 0 ==> Fresh(old(S()), c) && S() == Linked(old(S()), t, i, c, SplitTable(big), big.u || user)
    {
      c := AllocTable();
      if c != 0 {
        FillSplit(c, big);
        ram.Write(t, i, LinkTo(c, big.u || user));
      }
    }

    /** One level of paging_map_4k: from table `t` of level `l` to the table below its entry `i`,
        creating it, splitting a 2 MiB leaf or granting user access on the way. */
    method Descend(t: nat, l: Level, i: nat, user: bool) returns (ok: bool, c: nat)
      requires Valid() && l > 0 && t < |ram.m| && i < 512 && pmm.used[t]
      modifies Repr()
      ensures Valid() && Descended(old(S()), t, l, i, user, ok, c, S())
    {
      var e := ram.Read(t, i);
      if !e.p {
        c := LinkNew(t, i, user);
        return c != 0, c;
      }
      if e.ps && l == 2 { return false, 0; }
      if e.ps && l == 1 {
        c := LinkSplit(t, i, e, user);
        return c != 0, c;
      }
      if user {
        ram.Write(t, i, GrantU(e));
      }
      return true, e.frame;
    }

    /** `d` lists the tables of the current address space. */
    ghost predicate Current(d: Dir)
      reads this, ram, pmm, pmm.refs
    {
      Space(ram.m, d) && Owned(S(), d) && d[Top] == root
    }

    /** The three table levels of paging_map_4k. */
    method WalkDown(v: Page, user: bool, ghost d: Dir) returns (ok: bool, pt: nat, ghost d': Dir)
      requires Valid() && Current(d)
      modifies Repr()
      ensures Valid() && Walked(old(S()), d, S(), d', v)
      ensures ok ==> Reaches(S(), d', v, 1, user, pt)
      ensures !ok ==> Full(pmm.used) || Giant(ram.m, d', v)
    {
      var pdpt, pd;
      pt, d' := 0, d;
      ok, pdpt, d' := DescendAt(root, 3, user, v, d);
      if !ok { return; }
      ghost var s1, d1 := S(), d';
      ok, pd, d' := DescendAt(pdpt, 2, user, v, d1);
      WalkedTrans(old(S()), d, s1, d1, S(), d', v);
      if !ok { return; }
      ghost var s2, d2 := S(), d';
      ok, pt, d' := DescendAt(pd, 1, user, v, d2);
      WalkedTrans(old(S()), d, s2, d2, S(), d', v);
    }

    /** Descend at the level-`l` table on the path of `v`. */
    method DescendAt(t: nat, l: Level, user: bool, v: Page, ghost d: Dir) returns (ok: bool, c: nat, ghost d': Dir)
      requires Valid() && OnPath(S(), d, v, l, user) && d[At(v, l)] == t
      modifies Repr()
      ensures Valid() && Walked(old(S()), d, S(), d', v)
      ensures ok ==> Reaches(S(), d', v, l, user, c)
      ensures !ok ==> d' == d && S() == old(S()) && (Full(pmm.used) || (l == 2 && Giant(ram.m, d, v)))
    {
      StepDown(ram.m, d, v, l);
      ok, c := Descend(t, l, Idx(v, l), user);
      DescendKeepsViews(old(S()), d, v, l, user, ok, c, S());
      DescendWalks(old(S()), d, v, l, user, ok, c, S());
      d' := if ok then Deeper(d, v, l, c) else d;
    }

    /** The leaf write of paging_map_4k. */
    method WriteLeaf(pt: nat, v: Page, e: Pte, ghost d: Dir)
      requires Valid() && Space(ram.m, d) && Owned(S(), d) && Reaches(S(), d, v, 1, e.u, pt)
      modifies ram, ram.tabs
      ensures Valid() && Mapped(old(S()), d, S(), d, v, e)
    {
      WriteLeafStep(S(), d, v, e);
      ram.Write(pt, v.i1, e);
    }

    /** paging_map_4k on an aligned page and frame: on success `v` maps to frame `f` with the given
        access and every other page keeps its translation; on failure every page keeps it. */
    method MapPage(v: Page, f: nat, flags: Pte, ghost d: Dir) returns (ok: bool, ghost d': Dir)
      requires Valid() && Current(d)
      modifies Repr()
      ensures Valid()
      ensures ok ==> Mapped(old(S()), d, S(), d', v, MapLeaf(f, flags))
      ensures ok ==> forall x :: View(ram.m, d', x) == if x == v then Some(Leaf(f, flags.w, flags.u))
                                                       else View(old(ram.m), d, x)
      ensures ok ==> Keeps(LeafOf(ram.m, d', v), flags)
      ensures !ok ==> Walked(old(S()), d, S(), d', v)
      ensures !ok ==> Full(pmm.used) || Giant(ram.m, d', v)
    {
      var pt;
      ok, pt, d' := WalkDown(v, flags.u, d);
      if ok {
        ghost var s1 := S();
        WriteLeaf(pt, v, MapLeaf(f, flags), d');
        MapAfterWalk(old(S()), d, s1, d', S(), v, MapLeaf(f, flags));
        hide View, Space, Owned, Grown;
      }
    }

    /** paging_map_4k. */
    method Map4k(virt: nat, phys: nat, flags: Pte, ghost d: Dir) returns (ok: bool, ghost d': Dir)
      requires Valid() && (root != 0 ==> Current(d))
      modifies Repr()
      ensures Valid()
      ensures root == 0 || virt % 4096 != 0 || phys % 4096 != 0 ==> !ok && d' == d && S() == old(S())
      ensures ok ==> Mapped(old(S()), d, S(), d', PageOf(virt), MapLeaf(FrameOf(phys), flags))
      ensures ok ==>
              forall x :: View(ram.m, d', x) ==
                if x == PageNo(virt / 4096) then Some(Leaf(phys / 4096 % FRAMES, flags.w, flags.u))
                else View(old(ram.m), d, x)
      ensures ok ==> Keeps(LeafOf(ram.m, d', PageNo(virt / 4096)), flags)
      ensures !ok ==> (d' == d && S() == old(S())) || Walked(old(S()), d, S(), d', PageOf(virt))
      ensures !ok && root != 0 && virt % 4096 == 0 && phys % 4096 == 0 ==>
              Full(pmm.used) || Giant(ram.m, d', PageOf(virt))
    {
      hide PageNo, Mapped, Walked, Giant, Full, View, LeafOf, Keeps, Space, Owned;
      if root == 0 { return false, d; }
      if virt % 4096 != 0 || phys % 4096 != 0 { return false, d; }
      ok, d' := MapPage(PageOf(virt), FrameOf(phys), flags, d);
    }

    /** table_count_present. */
    method CountPresent(t: nat) returns (n: nat)
      requires Valid() && t < |ram.m|
      ensures n == Present(ram.m[t], 512)
    {
      n := 0;
      for i := 0 to 512
        invariant n == Present(ram.m[t], i)
      {
        var e := ram.Read(t, i);
        if e.p { n := n + 1; }
      }
    }

    /** pmm_free_page. */
    method FreeFrame(f: nat)
      requires Valid() && f != 0
      modifies pmm, pmm.bitmap
      ensures Valid() && S() == old(S()).Free(f)
    {
      pmm.FreePage(f);
    }

    /** pmm_page_deref. */
    method DerefFrame(f: nat)
      requires Valid()
      modifies pmm, pmm.bitmap, pmm.refs
      ensures old(pmm.View()).WellFormed()
      ensures Valid() && S() == old(S()).Deref(f)
    {
      pmm.DerefPage(f);
      assert forall q :: 0 <= q < pmm.total ==> pmm.refs[q] == pmm.refs[..][q];
    }

    /** One step of the cascade in paging_unmap_4k: frees table `t` if it has no present entry,
        and clears entry `i` of the table `up` above it. */
    method FreeIfEmpty(t: nat, up: nat, i: nat) returns (freed: bool)
      requires Valid() && 0 < t < |ram.m| && up < |ram.m| && i < 512
      modifies Repr()
      ensures Valid()
      ensures freed <==> Present(old(ram.m)[t], 512) == 0
      ensures S() == if freed then old(S()).Free(t).WithMem(Poke(old(ram.m), up, i, ZERO)) else old(S())
    {
      var n := CountPresent(t);
      freed := n == 0;
      if freed {
        FreeFrame(t);
        ram.Write(up, i, ZERO);
      }
    }

    /** The cascade of paging_unmap_4k from the level-`l` table on the path of `v`. */
    method Cascade(v: Page, l: Level, pdpt: nat, pd: nat, pt: nat, ghost d: Dir) returns (ghost d': Dir)
      requires Valid() && Current(d) && l < 3 && OnPathTo(d, v, l, pdpt, pd, pt)
      modifies Repr()
      ensures Valid() && (S(), d') == Cascaded(old(S()), d, v, l)
      decreases 3 - l
    {
      hide Pruned, Space, Owned, At, Without, IsEmpty, OnPathTo;
      var t := if l == 0 then pt else if l == 1 then pd else pdpt;
      var up := if l == 0 then pd else if l == 1 then pdpt else root;
      PathFacts(S(), d, v, l, pdpt, pd, pt);
      d' := d;
      var freed := FreeIfEmpty(t, up, Idx(v, l + 1));
      if freed {
        ghost var d1 := Without(d, At(v, l));
        PruneKeeps(old(S()), d, v, l);
        assert S() == PruneAt(old(S()), d, v, l);
        d' := d1;
        if l < 2 {
          d' := Cascade(v, l + 1, pdpt, pd, pt, d1);
        }
      }
    }

    /** The look-up of paging_unmap_4k: it stops at an absent entry, a large leaf or a kernel leaf. */
    method FindUserLeaf(v: Page, ghost d: Dir) returns (found: bool, pdpt: nat, pd: nat, pt: nat)
      requires Valid() && Current(d)
      ensures found <==> IsUser4k(ram.m, d, v)
      ensures found ==> OnPathTo(d, v, 0, pdpt, pd, pt)
    {
      pdpt, pd, pt := 0, 0, 0;
      assert At(v, 0).up == At(v, 1) && At(v, 1).up == At(v, 2);
      StepDown(ram.m, d, v, 3);
      var e4 := ram.Read(root, v.i4);
      if !e4.p { return false, 0, 0, 0; }
      pdpt := e4.frame;
      StepDown(ram.m, d, v, 2);
      var e3 := ram.Read(pdpt, v.i3);
      if !e3.p || e3.ps { return false, 0, 0, 0; }
      pd := e3.frame;
      StepDown(ram.m, d, v, 1);
      var e2 := ram.Read(pd, v.i2);
      if !e2.p || e2.ps { return false, 0, 0, 0; }
      pt := e2.frame;
      StepDown(ram.m, d, v, 0);
      var e1 := ram.Read(pt, v.i1);
      found := e1.p && e1.u;
    }

    /** paging_virt_to_phys: the walk in software finds what the processor would. */
    method VirtToPhys(virt: nat, ghost d: Dir) returns (phys: nat)
      requires Valid() && (root != 0 ==> Current(d))
      ensures phys == if root == 0 then 0 else PhysOf(View(ram.m, d, PageOf(virt)), virt)
      ensures root != 0 ==>
              var x := View(ram.m, d, PageNo(virt / 4096));
              phys == if x.None? then 0 else x.value.frame * 4096 + virt % 4096
    {
      assert root != 0 ==> Top in d;
      hide PageNo, View, Space, Owned;
      if root == 0 { return 0; }
      var v := PageOf(virt);
      LastPhys(ram.m, d, virt, 3);
      var e4 := ram.Read(root, v.i4);
      if !e4.p { return 0; }
      LastPhys(ram.m, d, virt, 2);
      var e3 := ram.Read(e4.frame, v.i3);
      if !e3.p { return 0; }
      if e3.ps { return e3.frame / 262144 * 262144 * 4096 + virt % 0x4000_0000; }
      LastPhys(ram.m, d, virt, 1);
      var e2 := ram.Read(e3.frame, v.i2);
      if !e2.p { return 0; }
      if e2.ps { return e2.frame / 512 * 512 * 4096 + virt % 0x20_0000; }
      LastPhys(ram.m, d, virt, 0);
      var e1 := ram.Read(e2.frame, v.i1);
      if !e1.p { return 0; }
      return e1.frame * 4096 + virt % 4096;
    }

    /** paging_unmap_4k: a 4 KiB user leaf is cleared and its frame let go of; the tables it leaves
        empty are freed. Anything else is refused and left alone. */
    method UnmapPage(v: Page, ghost d: Dir) returns (ok: bool, ghost d': Dir)
      requires Valid() && Current(d) && (IsUser4k(ram.m, d, v) ==> LeafSafe(S(), d, v))
      modifies Repr()
      ensures Valid() && (ok <==> IsUser4k(old(ram.m), d, v))
      ensures ok <==> At(v, 0) in d && View(old(ram.m), d, v).Some? && View(old(ram.m), d, v).value.u
      ensures !ok ==> S() == old(S()) && d' == d
      ensures ok ==> UnmapOk(old(S()), d, v) && (S(), d') == Unmap(old(S()), d, v)
      ensures forall x :: View(ram.m, d', x) == if ok && x == v then None else View(old(ram.m), d, x)
    {
      var pdpt, pd, pt;
      d' := d;
      UserShown(ram.m, d, v);
      ok, pdpt, pd, pt := FindUserLeaf(v, d);
      if ok {
        ClearStep(S(), d, v);
        UnmapShows(S(), d, v);
        hide Pruned, Space, Owned, NoEmptyBut, LeafSafe, View, Cascaded;
        ClearLeaf(pt, v.i1);
        assert S() == Cleared(old(S()), d, v);
        d' := Cascade(v, 0, pdpt, pd, pt, d);
      }
    }

    /** The leaf at entry `i` of the PT `t` let go of and cleared. */
    method ClearLeaf(t: nat, i: nat)
      requires Valid() && t < |ram.m| && i < 512
      modifies Repr()
      ensures Frames(old(pmm.used), old(pmm.refs[..])).WellFormed()
      ensures Valid() && S() == old(S()).Deref(old(ram.m)[t][i].frame).WithMem(Poke(old(ram.m), t, i, ZERO))
    {
      var e := ram.Read(t, i);
      DerefFrame(e.frame);
      ram.Write(t, i, ZERO);
    }

    /** memcpy to physical memory, inside one page. */
    method WriteBytes(f: nat, i: nat, b: seq<byte>)
      requires Valid() && f < |ram.data| && i + |b| <= 4096
      modifies ram, ram.bytes
      ensures Valid() && S() == Sys(old(ram.m), old(ram.data)[f := Overlay(old(ram.data)[f], i, b)],
                                    old(pmm.used), old(pmm.refs[..]))
    {
      hide Overlay;
      ram.WriteBytes(f, i, b);
    }

    /** A fresh zeroed page, or 0. */
    method AllocZeroPage() returns (f: nat)
      requires Valid()
      modifies Repr()
      ensures Valid()
      ensures f == 0 ==> S() == old(S()) && Full(old(pmm.used))
      ensures f != 0 ==> TakenPage(old(S()), f, S())
    {
      f := AllocFrame();
      if f != 0 {
        ram.ZeroPage(f);
      }
    }

    /** One round of vmm_alloc_user_pages: a fresh zeroed page at `v`, given back if it cannot be mapped. */
    method AllocAndMap(virt: nat, flags: Pte, ghost d: Dir)
      returns (ok: bool, ghost f: nat, ghost s1: Sys, ghost d': Dir)
      requires Valid() && Current(d)
      modifies Repr()
      ensures Valid() && (virt % 4096 != 0 ==> !ok)
      ensures ok ==> f != 0 && TakenPage(old(S()), f, s1) && Mapped(s1, d, S(), d', PageOf(virt), MapLeaf(f, flags))
      ensures !ok ==> (S() == old(S()) && d' == d) || MapFailed(old(S()), d, S(), d', f, s1)
      ensures !ok && root != 0 && virt % 4096 == 0 ==> pmm.free <= 1 || Giant(ram.m, d', PageOf(virt))
    {
      d' := d;
      var g := AllocZeroPage();
      f, s1 := g, S();
      if g == 0 {
        FreeCountZero(pmm.used);
        return false, f, s1, d;
      }
      FrameBack(g);
      SteppedRefl(s1, d);
      hide Space, Mapped, Stepped, PageOf, FrameOf, Giant, Full;
      ok, d' := Map4k(virt, g * 4096, flags, d);
      if !ok {
        ghost var s2 := S();
        GiveBack(g);
        assert Stepped(s1, d, s2, d');
      }
    }

    /** The page that could not be mapped goes back; if there was no frame left it is the only one. */
    method GiveBack(g: nat)
      requires Valid() && g != 0
      modifies pmm, pmm.bitmap
      ensures Valid() && S() == old(S()).Free(g)
      ensures Full(old(pmm.used)) ==> pmm.free <= 1
    {
      if Full(pmm.used) {
        FreeCountZero(pmm.used);
        if g < |pmm.used| { FreeCountUpdate(pmm.used, g, false); }
      }
      FreeFrame(g);
    }

    /** The same, as a step from a state `s0` on. */
    method AllocUserPage(virt: nat, flags: Pte, ghost s0: Sys, ghost d0: Dir, ghost d: Dir, ghost h: Held)
      returns (ok: bool, ghost d': Dir, ghost h': Held)
      requires Valid() && Current(d) && Start(s0, d0) && Holds(s0, d0, S(), d, h) && flags.u
      requires PageOf(virt) !in h && View(s0.m, d0, PageOf(virt)) == None && Blank(S(), d, h, flags.w)
      modifies Repr()
      ensures Valid() && (virt % 4096 != 0 ==> !ok)
      ensures ok ==>
              Current(d') && Holds(s0, d0, S(), d', h') && h'.Keys == h.Keys + {PageOf(virt)} &&
              Blank(S(), d', h', flags.w)
      ensures !ok ==> h' == h && Partly(s0, d0, S(), d', h) && Blank(S(), d', h, flags.w) && Current(d')
      ensures !ok && root != 0 && virt % 4096 == 0 ==> pmm.free <= 1
    {
      hide Space, Owned, View, Holds, Mapped, Start, TakenPage, PageOf, Giant, MapFailed, Blank, Partly;
      h' := h;
      ghost var f, s1;
      ok, f, s1, d' := AllocAndMap(virt, flags, d);
      if !ok {
        FailedNoGiant(s0, d0, old(S()), d, h, S(), d', f, s1, PageOf(virt));
        FailHolds(s0, d0, old(S()), d, h, PageOf(virt), f, s1, S(), d', flags.w);
        HoldsFacts(s0, d0, old(S()), d, h);
        PartlyFacts(s0, d0, S(), d', h);
      }
      if ok {
        HoldsMore(s0, d0, old(S()), d, h, PageOf(virt), f, MapLeaf(f, flags), s1, S(), d');
        BlankMore(s0, d0, old(S()), d, h, PageOf(virt), f, MapLeaf(f, flags), s1, S(), d');
        h' := h[PageOf(virt) := f];
        HoldsFacts(s0, d0, old(S()), d, h);
        HoldsFacts(s0, d0, S(), d', h');
      }
    }

    /** vmm_alloc_user_pages on a range that is not mapped: on success exactly the pages of the
        range are held, each in its own fresh frame of zeros, writable if that was asked for. */
    method AllocUserPages(virt: nat, n: nat, writable: bool, ghost d: Dir)
      returns (ok: bool, ghost d': Dir, ghost h: Held)
      requires Valid() && Current(d) && Start(S(), d) && n <= PAGES && Unmapped(ram.m, d, virt / 4096, n)
      modifies Repr()
      ensures Valid() && (n == 0 || virt % 4096 != 0 ==> !ok)
      ensures ok ==>
              Current(d') && Holds(old(S()), d, S(), d', h) && h.Keys == Pages(virt / 4096, n) &&
              Blank(S(), d', h, writable)
      ensures !ok ==>
              Current(d') && Partly(old(S()), d, S(), d', h) && Blank(S(), d', h, writable) &&
              exists i :: 0 <= i <= n && (n > 0 ==> i < n) && h.Keys == Pages(virt / 4096, i)
      ensures !ok && root != 0 && n > 0 && virt % 4096 == 0 ==> pmm.free <= 1
    {
      hide Holds, Start, Current, Pages, PageOf, View, Unmapped, Valid, Blank, Partly;
      d', h := d, map[];
      HoldsNothing(S(), d);
      BlankNone(S(), d, writable);
      PagesNone(h, virt / 4096);
      if n == 0 {
        HoldsPartly(S(), d, S(), d, h);
        return false, d, h;
      }
      var i := 0;
      while i < n
        invariant i <= n && Valid() && Current(d') && Holds(old(S()), d, S(), d', h) && Blank(S(), d', h, writable)
        invariant h.Keys == Pages(virt / 4096, i) && (i > 0 ==> virt % 4096 == 0)
      {
        NextPage(old(ram.m), d, virt, i, n);
        ok, d', h := AllocUserPage(virt + i * 4096, ZERO.(p := true, u := true, w := writable), old(S()), d, d', h);
        if !ok { return false, d', h; }
        i := i + 1;
      }
      ok := true;
    }

    /** One round of vmm_unmap_user_range. */
    method UnmapOne(va: nat, ghost s0: Sys, ghost d0: Dir, ghost d: Dir, ghost h: Held, ghost q: nat, ghost i: nat,
        ghost n: nat)
      returns (ghost d': Dir)
      requires Valid() && Current(d) && Start(s0, d0) && i < n <= PAGES && MayUnmap(s0, d0, h, q, n) &&
               PageOf(va) == PageAt(q, i)
      requires Holds(s0, d0, S(), d, LessPages(h, q, i))
      modifies Repr()
      ensures Valid() && Current(d') && Holds(s0, d0, S(), d', LessPages(h, q, i + 1))
      ensures forall x :: View(ram.m, d', x) == if x == PageAt(q, i) && x in h then None else View(old(ram.m), d, x)
    {
      UnmapRound(s0, d0, S(), d, h, q, i, n);
      HoldsFacts(s0, d0, S(), d, LessPages(h, q, i));
      hide Holds, Start, MayUnmap, LessPages, PageAt, PageOf, Space, Owned, IsUser4k, LeafSafe, UnmapOk, Unmap, View;
      var ok;
      ok, d' := UnmapPage(PageOf(va), d);
      HoldsFacts(s0, d0, S(), d', LessPages(h, q, i + 1));
    }

    /** vmm_unmap_user_range: the held pages the byte range touches are unmapped, every other page
        in it is refused and left alone. */
    method UnmapUserRange(virt: nat, len: nat, ghost s0: Sys, ghost d0: Dir, ghost d: Dir,
        ghost h: Held)
      returns (ghost d': Dir)
      requires Valid() && Current(d) && Start(s0, d0) && Holds(s0, d0, S(), d, h)
      requires Touched(virt, len) <= PAGES && MayUnmap(s0, d0, h, virt / 4096, Touched(virt, len))
      modifies Repr()
      ensures Valid() && Current(d')
      ensures Holds(s0, d0, S(), d', LessPages(h, virt / 4096, Touched(virt, len)))
      ensures forall v: Page :: View(ram.m, d', v) ==
                if v in h && Spans(virt, len, v) then None else View(old(ram.m), d, v)
    {
      hide Holds, Start, MayUnmap, LessPages, PageAt, PageOf, Current, Valid, LessShown, View, Spans;
      var q, n := virt / 4096, Touched(virt, len);
      PagesNone(h, q);
      LessNone(ram.m, d, h, q);
      var va, end, i := q * 4096, (virt + len + 4095) / 4096 * 4096, 0;
      d' := d;
      while va < end
        invariant va == q * 4096 + i * 4096 && i <= n && end == q * 4096 + n * 4096
        invariant Valid() && Current(d') && Holds(s0, d0, S(), d', LessPages(h, q, i))
        invariant LessShown(old(ram.m), d, ram.m, d', h, q, i)
      {
        ghost var m1, d1 := ram.m, d';
        RangePage(q * 4096, i, n);
        d' := UnmapOne(va, s0, d0, d', h, q, i, n);
        LessMore(old(ram.m), d, m1, d1, ram.m, d', h, q, i);
        va, i := va + 4096, i + 1;
      }
      LessSpans(old(ram.m), d, ram.m, d', h, virt, len);
    }

    /** Allocating user pages on an unmapped range and unmapping it again is the identity on the
        bitmap, the free count and every translation, if no table was empty to begin with. */
    method AllocThenUnmap(virt: nat, n: nat, writable: bool, ghost d: Dir) returns (ok: bool)
      requires Valid() && Current(d) && Start(S(), d) && n <= PAGES && Unmapped(ram.m, d, virt / 4096, n)
      modifies Repr()
      ensures Valid()
      ensures ok ==> Current(d) && SameViews(old(ram.m), d, ram.m, d)
      ensures ok ==> pmm.used == old(pmm.used) && pmm.free == old(pmm.free)
      ensures !ok && root != 0 && n > 0 && virt % 4096 == 0 ==> pmm.free <= 1
    {
      hide Holds, Start, Current, Pages, PageOf, View, Unmapped, Valid, LessPages, Touched, Space, Owned;
      ghost var d1, d2, h;
      ghost var s0 := S();
      CountIsFree();
      ok, d1, h := AllocUserPages(virt, n, writable, d);
      if ok {
        RangeIsHeld(s0, d, h, virt, n);
        d2 := UnmapUserRange(virt, n * 4096, s0, d, d1, h);
        HoldsNoneIsStart(s0, d, S(), d2);
        CountIsFree();
      }
    }

    lemma CountIsFree()
      requires Valid()
      ensures pmm.free == FreeCount(pmm.used)
    {
    }
  }
}
