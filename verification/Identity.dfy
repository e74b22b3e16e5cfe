/** The kernel's own address space: physical memory mapped onto itself with 2 MiB leaves
    (paging_init_identity in kernel/arch/x86_64/paging.c). */
module Identity {
  import opened Tiny
  import opened PageTables
  import opened Pmm
  import opened VmSpec
  import opened Vm
  import opened VmFork

  /** The number of a page. */
  function Num(v: Page): nat
  {
    v.i4 * 0x800_0000 + v.i3 * 0x4_0000 + v.i2 * 512 + v.i1
  }

  /** The PDPT, and PD number `j` below it. */
  function Pdpt(): Pos
  {
    Below(2, Top, 0)
  }

  function Pd(j: nat): Pos
  {
    Below(1, Pdpt(), j)
  }

  /** The tables are the PML4, the PDPT and `k` PDs. */
  ghost predicate HasTable(d: Dir, k: nat, x: Pos)
  {
    x in d <==> x == Top || x == Pdpt() || (x.Below? && 0 <= x.slot < k && x == Pd(x.slot))
  }

  ghost predicate Maps(m: Mem, d: Dir, n: nat, v: Page)
  {
    View(m, d, v) == if Num(v) < n * 512 then Some(Leaf(Num(v), true, false)) else None
  }

  ghost predicate NoUser(m: Mem, d: Dir, x: Pos, i: nat)
  {
    !Entry(m, d, x, i).u
  }

  /** The first `n` large pages are mapped onto themselves, for the kernel only; nothing else is mapped. */
  ghost predicate Ident(s: Sys, d: Dir, k: nat, n: nat)
  {
    Space(s.m, d) && Owned(s, d) && k <= 512 && HasTables(d, k) && MapsAll(s.m, d, n) && NoUsers(s.m, d)
  }

  ghost predicate HasTables(d: Dir, k: nat)
  {
    forall x: Pos {:trigger HasTable(d, k, x)} :: HasTable(d, k, x)
  }

  ghost predicate MapsAll(m: Mem, d: Dir, n: nat)
  {
    forall v: Page {:trigger Maps(m, d, n, v)} :: Maps(m, d, n, v)
  }

  ghost predicate NoUsers(m: Mem, d: Dir)
  {
    forall x: Pos, i: nat {:trigger NoUser(m, d, x, i)} :: NoUser(m, d, x, i)
  }

  /** Such a space is one CloneSpace may start from. */
  lemma IdentIsKernel(s: Sys, d: Dir, k: nat, n: nat)
    requires Ident(s, d, k, n)
    ensures KernelOnly(s, d)
  {
    forall x, i | x in d
      ensures !Entry(s.m, d, x, i).u
    {
      if i >= 0 { assert NoUser(s.m, d, x, i); }
    }
  }

  /** The entry for large page `n`. */
  function Big(n: nat): Pte
  {
    ZERO.(p := true, w := true, ps := true, frame := n * 512)
  }

  lemma NumSplit(v: Page, n: nat)
    requires n < 0x4_0000
    ensures Num(v) < (n + 1) * 512 <==> Num(v) < n * 512 || (v.i4 == 0 && v.i3 == n / 512 && v.i2 == n % 512)
    ensures v.i4 == 0 && v.i3 == n / 512 && v.i2 == n % 512 ==> Num(v) == n * 512 + v.i1
  {
    var q := v.i4 * 0x4_0000 + v.i3 * 512 + v.i2;
    assert Num(v) == 512 * q + v.i1;
    assert q == n ==> v.i4 == 0 && v.i3 == n / 512 && v.i2 == n % 512;
    assert n == 512 * (n / 512) + n % 512;
  }

  /** Which pages entry `n % 512` of PD `n / 512` translates. */
  lemma ThroughBig(d: Dir, k: nat, n: nat, v: Page)
    requires n / 512 < k <= 512 && HasTables(d, k)
    ensures Through(d, Pd(n / 512), n % 512, v) <==> v.i4 == 0 && v.i3 == n / 512 && v.i2 == n % 512
  {
    assert HasTable(d, k, At(v, 0)) && HasTable(d, k, At(v, 1)) && HasTable(d, k, At(v, 2));
    assert Pd(n / 512).up == Pdpt();
  }

  lemma BigMayWrite(s: Sys, d: Dir, k: nat, n: nat)
    requires Ident(s, d, k, n) && n / 512 < k
    ensures Pd(n / 512) in d && MayWrite(s.m, d, Pd(n / 512), n % 512, Big(n))
  {
    var x := Pd(n / 512);
    assert HasTable(d, k, x) && HasTable(d, k, Child(x, n % 512));
    assert EntryOk(s.m, d, x, n % 512);
  }

  lemma BigStep(s: Sys, d: Dir, k: nat, n: nat)
    requires Sane(s) && Ident(s, d, k, n) && n / 512 < k
    ensures Pd(n / 512) in d && d[Pd(n / 512)] < |s.m|
    ensures Ident(s.WithMem(Poke(s.m, d[Pd(n / 512)], n % 512, Big(n))), d, k, n + 1)
  {
    BigMayWrite(s, d, k, n);
    var x, i := Pd(n / 512), n % 512;
    WriteEntry(s.m, d, x, i, Big(n));
    PokeEntry(s.m, d, x, i, Big(n));
    var m' := Poke(s.m, d[x], i, Big(n));
    hide Space, View, Through;
    var n' := n + 1;
    forall v: Page
      ensures Maps(m', d, n', v)
    {
      assert Maps(s.m, d, n, v);
      ThroughBig(d, k, n, v);
      NumSplit(v, n);
    }
    forall y: Pos, j: nat
      ensures NoUser(m', d, y, j)
    {
      assert NoUser(s.m, d, y, j);
    }
  }

  /** Page `v` of a region whose PD is not there yet. */
  lemma PdAbsent(s: Sys, d: Dir, k: nat, n: nat)
    requires Ident(s, d, k, n) && k < 512 && n <= k * 512
    ensures Pdpt() in d && !Entry(s.m, d, Pdpt(), k).p
  {
    var v := VPage(0, k, 0, 0);
    assert HasTable(d, k, Pdpt()) && HasTable(d, k, At(v, 1)) && HasTable(d, k, At(v, 0));
    assert Maps(s.m, d, n, v);
  }

  lemma PdStep(s: Sys, d: Dir, k: nat, n: nat, f: nat)
    requires Sane(s) && Ident(s, d, k, n) && k < 512 && n <= k * 512 && Fresh(s, f)
    ensures Pdpt() in d && d[Pdpt()] < |s.m|
    ensures Ident(Linked(s, d[Pdpt()], k, f, EmptyTable(), false), d[Pd(k) := f], k + 1, n)
  {
    PdAbsent(s, d, k, n);
    var v := VPage(0, k, 0, 0);
    assert At(v, 2) == Pdpt() && At(v, 1) == Pd(k);
    NewTableStep(s, d, v, 2, false, f);
    var s', d' := Linked(s, d[Pdpt()], k, f, EmptyTable(), false), d[Pd(k) := f];
    LinkedNoUser(s, d, Pdpt(), k, f);
    assert Child(Pdpt(), k) == Pd(k);
    hide View, Linked, Space, Owned, NoUsers;
    MoreTables(d, k, f);
    SameMaps(s.m, d, s'.m, d', n);
  }

  lemma MoreTables(d: Dir, k: nat, f: nat)
    requires HasTables(d, k)
    ensures HasTables(d[Pd(k) := f], k + 1)
  {
    var d', k' := d[Pd(k) := f], k + 1;
    forall x: Pos
      ensures HasTable(d', k', x)
    {
      assert HasTable(d, k, x);
    }
  }

  lemma SameMaps(m: Mem, d: Dir, m': Mem, d': Dir, n: nat)
    requires MapsAll(m, d, n) && SameViews(m, d, m', d')
    ensures MapsAll(m', d', n)
  {
    hide View;
    forall v: Page
      ensures Maps(m', d', n, v)
    {
      assert Maps(m, d, n, v);
    }
  }

  /** A kernel link and an empty table grant nothing. */
  lemma LinkedNoUser(s: Sys, d: Dir, x: Pos, i: nat, f: nat)
    requires Sane(s) && Space(s.m, d) && Owned(s, d) && x in d && i < 512 && Fresh(s, f)
    requires NoUsers(s.m, d)
    ensures NoUsers(Linked(s, d[x], i, f, EmptyTable(), false).m, d[Child(x, i) := f])
  {
    var m', d' := Linked(s, d[x], i, f, EmptyTable(), false).m, d[Child(x, i) := f];
    forall y: Pos, j: nat
      ensures NoUser(m', d', y, j)
    {
      assert NoUser(s.m, d, y, j);
    }
  }

  /** A PML4 alone. */
  lemma TopStep(s: Sys, f: nat)
    requires Sane(s) && Fresh(s, f) && f != 0
    ensures var s' := Taken(s, f, EmptyTable()); var d: Dir := map[Top := f];
            Space(s'.m, d) && Owned(s', d) && MapsAll(s'.m, d, 0) && NoUsers(s'.m, d)
  {
    var s' := Taken(s, f, EmptyTable());
    var d: Dir := map[Top := f];
    forall x, i | x in d && 0 <= i < 512
      ensures EntryOk(s'.m, d, x, i)
    {
      assert x == Top && Entry(s'.m, d, Top, i) == ZERO;
    }
    forall y: Pos, j: nat
      ensures NoUser(s'.m, d, y, j)
    {
    }
  }

  /** The PDPT below it. */
  lemma PdptStep(s: Sys, d: Dir, t: nat, f: nat)
    requires d == map[Top := t] && Sane(s) && Space(s.m, d) && Owned(s, d) && MapsAll(s.m, d, 0) && NoUsers(s.m, d) &&
             Fresh(s, f)
    ensures t < |s.m| && Ident(Linked(s, t, 0, f, EmptyTable(), false), d[Pdpt() := f], 0, 0)
  {
    var v := VPage(0, 0, 0, 0);
    TopEmpty(s, d, v);
    assert Child(Top, 0) == Pdpt();
    hide View, Linked, Space, Owned, NoUsers, Maps, Sane, Entry, EmptyTable;
    NewTableStep(s, d, v, 3, false, f);
    LinkedNoUser(s, d, Top, 0, f);
    var s', d' := Linked(s, t, 0, f, EmptyTable(), false), d[Pdpt() := f];
    TwoTables(d, f);
    SameMaps(s.m, d, s'.m, d', 0);
  }

  lemma TopEmpty(s: Sys, d: Dir, v: Page)
    requires d.Keys == {Top} && MapsAll(s.m, d, 0) && v == VPage(0, 0, 0, 0)
    ensures At(v, 3) == Top && At(v, 2) == Pdpt() && Idx(v, 3) == 0 && Deep(d, v) == 3 && !Entry(s.m, d, Top, 0).p
  {
    assert At(v, 0).Below? && At(v, 1).Below? && At(v, 2).Below?;
    assert forall x :: x in d <==> x == Top;
    Unmapped(s.m, d, v);
    hide Maps, MapsAll;
  }

  lemma Unmapped(m: Mem, d: Dir, v: Page)
    requires MapsAll(m, d, 0)
    ensures View(m, d, v) == None
  {
    assert Maps(m, d, 0, v);
    hide View;
  }

  lemma TwoTables(d: Dir, f: nat)
    requires d.Keys == {Top}
    ensures HasTables(d[Pdpt() := f], 0)
  {
    var d' := d[Pdpt() := f];
    forall x: Pos
      ensures HasTable(d', 0, x)
    {
    }
  }

  /** paging_init_identity's count of 2 MiB pages: at least one, at most 512 GiB's worth. */
  function LargeCount(ceiling: nat): nat
  {
    var n := (ceiling + 0x1F_FFFF) / 0x20_0000;
    if n < 1 then 1 else if n > 0x4_0000 then 0x4_0000 else n
  }

  /** That is: large page `n` is mapped if it starts below the ceiling or is the first, and is within 512 GiB. */
  lemma LargeIs(ceiling: nat, q: nat)
    ensures q < LargeCount(ceiling) * 512 <==> q < 512 || (q < 0x800_0000 && q / 512 * 0x20_0000 < ceiling)
  {
    var n := (ceiling + 0x1F_FFFF) / 0x20_0000;
    assert q / 512 < n <==> q / 512 * 0x20_0000 < ceiling;
  }

  /** Page number `q` is mapped to frame `q` for the kernel if it is below the ceiling, and not at all otherwise. */
  ghost predicate Direct(m: Mem, root: nat, ceiling: nat, q: nat)
  {
    q < PAGES ==>
      Walk(m, root, 3, PageNo(q)) ==
      if q < 512 || (q < 0x800_0000 && q / 512 * 0x20_0000 < ceiling) then Some(Leaf(q, true, false)) else None
  }

  lemma NumIs(q: nat)
    requires q < PAGES
    ensures Num(PageNo(q)) == q
  {
    var a := q / 512;
    var b := a / 512;
    assert q / 0x4_0000 == b && q / 0x800_0000 == b / 512;
    assert q == 512 * a + q % 512 && a == 512 * b + a % 512 && b == 512 * (b / 512) + b % 512;
  }

  lemma IdentDirect(s: Sys, d: Dir, k: nat, ceiling: nat)
    requires Ident(s, d, k, LargeCount(ceiling)) && Top in d
    ensures forall q: nat {:trigger Direct(s.m, d[Top], ceiling, q)} :: Direct(s.m, d[Top], ceiling, q)
  {
    hide LargeCount, View, Walk, PageNo, Num, Space, Owned;
    forall q: nat
      ensures Direct(s.m, d[Top], ceiling, q)
    {
      if q < PAGES {
        LargeIs(ceiling, q);
        NumIs(q);
        WalkIsView(s.m, d, PageNo(q));
        assert Maps(s.m, d, LargeCount(ceiling), PageNo(q));
      }
    }
  }

  method InitTop(k: Machine) returns (ok: bool, pdpt: nat, ghost d: Dir)
    requires k.Valid()
    modifies k, k.Repr()
    ensures k.Valid() && (!ok ==> Full(k.pmm.used))
    ensures ok ==>
            k.root != 0 && Ident(k.S(), d, 0, 0) && Top in d && d[Top] == k.root && Pdpt() in d && d[Pdpt()] == pdpt
  {
    hide Ident;
    d, pdpt := map[], 0;
    var top := k.AllocTable();
    k.root := top;
    if top == 0 { return false, 0, d; }
    TopStep(old(k.S()), top);
    ghost var s1 := k.S();
    pdpt := k.LinkNew(top, 0, false);
    if pdpt == 0 { return false, 0, d; }
    PdptStep(s1, map[Top := top], top, pdpt);
    d := map[Top := top][Pdpt() := pdpt];
    ok := true;
  }

  /** The entries of PD `j`, as far as there are large pages left. */
  method FillPd(k: Machine, pd: nat, j: nat, total: nat, ghost c: nat, ghost d: Dir) returns (n: nat)
    requires k.Valid() && Ident(k.S(), d, c, j * 512) && j < c && Pd(j) in d && d[Pd(j)] == pd && j * 512 <= total
    modifies k.ram, k.ram.tabs
    ensures k.Valid() && n == (if (j + 1) * 512 < total then (j + 1) * 512 else total) && Ident(k.S(), d, c, n)
  {
    hide Ident;
    n := j * 512;
    var i := 0;
    while i < 512 && n < total
      invariant 0 <= i <= 512 && n == j * 512 + i && n <= total && k.Valid() && Ident(k.S(), d, c, n)
    {
      assert n / 512 == j && n % 512 == i;
      BigStep(k.S(), d, c, n);
      k.ram.Write(pd, i, Big(n));
      i, n := i + 1, n + 1;
    }
  }

  /** One round of the outer loop: PD `j` with its entries. */
  method AddPd(k: Machine, pdpt: nat, j: nat, total: nat, ghost n: nat, ghost d: Dir)
    returns (ok: bool, n': nat, ghost d': Dir)
    requires k.Valid() && Ident(k.S(), d, j, n) && n == j * 512 < total && j < 512 && Top in d && Pdpt() in d &&
             d[Pdpt()] == pdpt
    modifies k.Repr()
    ensures k.Valid() && (!ok ==> Full(k.pmm.used))
    ensures ok ==> Ident(k.S(), d', j + 1, n') && n' == (if (j + 1) * 512 < total then (j + 1) * 512 else total)
    ensures ok ==> Top in d' && d'[Top] == d[Top] && Pdpt() in d' && d'[Pdpt()] == pdpt
  {
    hide Ident;
    n', d' := 0, d;
    IdentFacts(k.S(), d, j, n);
    var pd := k.LinkNew(pdpt, j, false);
    if pd == 0 { return false, 0, d; }
    PdStep(old(k.S()), d, j, n, pd);
    d' := d[Pd(j) := pd];
    n' := FillPd(k, pd, j, total, j + 1, d');
    ok := true;
  }

  /** How far the map goes. */
  method Extent(ceiling: nat) returns (ceil: nat, total: nat, pds: nat)
    ensures total == LargeCount(ceiling) && ceil == total * 0x20_0000 && pds == (total + 511) / 512 && pds <= 512
  {
    ceil := (ceiling + 0x1F_FFFF) / 0x20_0000 * 0x20_0000;
    if ceil < 0x20_0000 { ceil := 0x20_0000; }
    total := ceil / 0x20_0000;
    pds := (total + 511) / 512;
    if pds > 512 {
      pds := 512;
      total := pds * 512;
      ceil := total * 0x20_0000;
    }
  }

  /** paging_init_identity: page `q` is mapped to frame `q`, writable and not for users, for every page
      below the ceiling in 2 MiB steps; no other page is mapped. It fails only for want of frames. */
  method InitIdentity(k: Machine, ceiling: nat) returns (ok: bool, ceil: nat, ghost d: Dir)
    requires k.Valid()
    modifies k, k.Repr()
    ensures k.Valid() && (!ok ==> Full(k.pmm.used))
    ensures ok ==> k.root != 0 && k.Current(d) && ceil == LargeCount(ceiling) * 0x20_0000
    ensures ok ==> Ident(k.S(), d, (LargeCount(ceiling) + 511) / 512, LargeCount(ceiling))
    ensures ok ==>
            forall q: nat {:trigger Direct(k.ram.m, k.root, ceiling, q)} :: Direct(k.ram.m, k.root, ceiling, q)
  {
    hide Ident, LargeCount, Sane, Pmm.FrameAllocator.Valid, PhysMem.Ram.Valid;
    var total, pds, pdpt;
    ceil, total, pds := Extent(ceiling);
    ok, pdpt, d := InitTop(k);
    if !ok { return; }
    var j, n := 0, 0;
    while j < pds
      invariant 0 <= j <= pds && k.Valid() && k.root != 0 && Ident(k.S(), d, j, n) &&
                n == (if j * 512 < total then j * 512 else total)
      invariant Top in d && d[Top] == k.root && Pdpt() in d && d[Pdpt()] == pdpt
    {
      ok, n, d := AddPd(k, pdpt, j, total, n, d);
      if !ok { return; }
      j := j + 1;
    }
    IdentFacts(k.S(), d, j, n);
    IdentDirect(k.S(), d, j, ceiling);
    ok := true;
  }

  lemma IdentFacts(s: Sys, d: Dir, k: nat, n: nat)
    requires Ident(s, d, k, n) && Pdpt() in d
    ensures Space(s.m, d) && Owned(s, d) && d[Pdpt()] < |s.m| && d[Pdpt()] < |s.used| && s.used[d[Pdpt()]]
  {
  }
}
