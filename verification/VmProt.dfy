/** Changing the write access of a range (paging_set_prot_range in kernel/arch/x86_64/paging.c,
    vmm_set_prot in kernel/mm/vmm.c). */
module VmProt {
  import opened Tiny
  import opened PageTables
  import opened VmSpec
  import opened VmRange
  import opened Vm

  /** A translation with its write access set. */
  function WithW(x: Option<Leaf>, w: bool): Option<Leaf>
  {
    match x
    case None => None
    case Some(l) => Some(l.(w := w))
  }

  /** Page `v` has the access asked for if it is one of the first `n`, and is as it was otherwise. */
  ghost predicate ProtAt(m0: Mem, d: Dir, m: Mem, q: nat, n: nat, w: bool, v: Page)
  {
    && View(m, d, v) == (if v in Pages(q, n) then WithW(View(m0, d, v), w) else View(m0, d, v))
    && (IsUser4k(m, d, v) <==> IsUser4k(m0, d, v)) && SameFlags(LeafOf(m, d, v), LeafOf(m0, d, v))
  }

  ghost predicate Prot(m0: Mem, d: Dir, m: Mem, q: nat, n: nat, w: bool)
  {
    forall v: Page {:trigger ProtAt(m0, d, m, q, n, w, v)} :: ProtAt(m0, d, m, q, n, w, v)
  }

  lemma ProtNone(m: Mem, d: Dir, q: nat, w: bool)
    ensures Prot(m, d, m, q, 0, w)
  {
    hide View, IsUser4k;
    PagesNone(map[], q);
    forall v: Page
      ensures ProtAt(m, d, m, q, 0, w, v)
    {
    }
  }

  /** The leaf of `v` written with another W. */
  function Reset(s: Sys, d: Dir, v: Page, w: bool): Sys
    requires At(v, 0) in d && d[At(v, 0)] < |s.m|
  {
    s.WithMem(Poke(s.m, d[At(v, 0)], v.i1, Entry(s.m, d, At(v, 0), v.i1).(w := w)))
  }

  lemma ResetViews(s: Sys, d: Dir, v: Page, w: bool)
    requires Sane(s) && Space(s.m, d) && Owned(s, d) && IsUser4k(s.m, d, v)
    ensures d[At(v, 0)] < |s.m| && Space(Reset(s, d, v, w).m, d)
    ensures forall x :: View(Reset(s, d, v, w).m, d, x) == if x == v then WithW(View(s.m, d, v), w) else View(s.m, d, x)
  {
    var e := Entry(s.m, d, At(v, 0), v.i1);
    StepDown(s.m, d, v, 0);
    assert At(v, 0).up == At(v, 1) && At(v, 0).slot == v.i2;
    SetLeafStep(s, d, v, e.(w := w));
    assert View(s.m, d, v) == Seen(e, 0, v);
    hide View, Space, Owned, Entry, At;
  }

  lemma ResetKinds(s: Sys, d: Dir, v: Page, w: bool, x: Page)
    requires Space(s.m, d) && IsUser4k(s.m, d, v)
    ensures d[At(v, 0)] < |s.m| && (IsUser4k(Reset(s, d, v, w).m, d, x) <==> IsUser4k(s.m, d, x))
    ensures SameFlags(LeafOf(Reset(s, d, v, w).m, d, x), LeafOf(s.m, d, x))
  {
    StepDown(s.m, d, v, 0);
    PokeEntry(s.m, d, At(v, 0), v.i1, Entry(s.m, d, At(v, 0), v.i1).(w := w));
    hide Space, Entry;
  }

  lemma ProtMore(m0: Mem, d: Dir, s: Sys, q: nat, n: nat, w: bool)
    requires Sane(s) && Space(s.m, d) && Owned(s, d) && Prot(m0, d, s.m, q, n, w) && n < PAGES &&
             IsUser4k(s.m, d, PageAt(q, n))
    ensures d[At(PageAt(q, n), 0)] < |s.m| && Space(Reset(s, d, PageAt(q, n), w).m, d)
    ensures Prot(m0, d, Reset(s, d, PageAt(q, n), w).m, q, n + 1, w)
  {
    var v := PageAt(q, n);
    ResetViews(s, d, v, w);
    PagesMore(q, n);
    var m', n' := Reset(s, d, v, w).m, n + 1;
    hide View, IsUser4k, Pages, PageAt, Reset, Space;
    forall x: Page
      ensures ProtAt(m0, d, m', q, n', w, x)
    {
      assert ProtAt(m0, d, s.m, q, n, w, x);
      ResetKinds(s, d, v, w, x);
    }
  }

  /** One page: its leaf is a 4 KiB user leaf and gets its W, or it is refused. */
  method SetPage(k: Machine, v: Page, w: bool, ghost d: Dir) returns (ok: bool)
    requires k.Valid() && k.Current(d)
    modifies k.Repr()
    ensures k.Valid() && (ok <==> IsUser4k(old(k.ram.m), d, v))
    ensures if ok then At(v, 0) in d && d[At(v, 0)] < |old(k.ram.m)| && k.S() == Reset(old(k.S()), d, v, w)
            else k.S() == old(k.S())
  {
    var pdpt, pd, pt;
    ok, pdpt, pd, pt := k.FindUserLeaf(v, d);
    if ok {
      StepDown(k.ram.m, d, v, 0);
      var e := k.ram.Read(pt, v.i1);
      k.ram.Write(pt, v.i1, e.(w := w));
    }
  }

  /** Page `n` of the range, at address `va`. */
  method SetOne(k: Machine, va: nat, w: bool, ghost m0: Mem, ghost d: Dir, ghost q: nat, ghost n: nat,
      ghost t: nat)
    returns (ok: bool)
    requires k.Valid() && k.Current(d) && Prot(m0, d, k.ram.m, q, n, w) && n < t <= PAGES && va == q * 4096 + n * 4096
    modifies k.Repr()
    ensures k.Valid() && k.Current(d) && (ok <==> IsUser4k(m0, d, PageAt(q, n)))
    ensures Prot(m0, d, k.ram.m, q, if ok then n + 1 else n, w)
  {
    hide Prot, PageAt, IsUser4k, Space, Reset, PageOf, Sane, Pmm.FrameAllocator.Valid, PhysMem.Ram.Valid;
    Next(m0, d, k.S(), q, n, t, w, va);
    ok := SetPage(k, PageOf(va), w, d);
    if ok { ResetOnlyMem(old(k.S()), d, PageAt(q, n), w); }
  }

  lemma ResetOnlyMem(s: Sys, d: Dir, v: Page, w: bool)
    requires At(v, 0) in d && d[At(v, 0)] < |s.m|
    ensures Reset(s, d, v, w).used == s.used
  {
  }

  /** Page `v` keeps its frame, its U and its other flags, and has the W asked for if it is one of those set and its
      own if not. */
  ghost predicate ProtShown(m0: Mem, d: Dir, m: Mem, v: Page, set_: bool, w: bool)
  {
    var a, b := View(m0, d, v), View(m, d, v);
    && (a.None? <==> b.None?) && SameFlags(LeafOf(m, d, v), LeafOf(m0, d, v))
    && (a.Some? && b.Some? ==>
         && b.value.frame == a.value.frame && b.value.u == a.value.u
         && b.value.w == if set_ then w else a.value.w)
  }

  lemma ProtSpans(m0: Mem, d: Dir, m: Mem, virt: nat, len: nat, w: bool)
    requires Prot(m0, d, m, virt / 4096, Touched(virt, len), w)
    ensures forall v: Page :: ProtShown(m0, d, m, v, Spans(virt, len, v), w)
  {
    hide View, Pages, Touched, Spans, SameFlags, LeafOf;
    forall v: Page
      ensures ProtShown(m0, d, m, v, Spans(virt, len, v), w)
    {
      TouchedIs(virt, len, v);
      assert ProtAt(m0, d, m, virt / 4096, Touched(virt, len), w, v);
    }
  }

  lemma ProtFirst(m0: Mem, d: Dir, m: Mem, q: nat, n: nat, w: bool)
    requires Prot(m0, d, m, q, n, w)
    ensures forall v: Page :: ProtShown(m0, d, m, v, Spans(q * 4096, n * 4096, v), w)
  {
    assert q * 4096 / 4096 == q && Touched(q * 4096, n * 4096) == n;
    hide Prot, ProtShown, Spans, Touched;
    ProtSpans(m0, d, m, q * 4096, n * 4096, w);
  }

  lemma AllUser(m: Mem, d: Dir, virt: nat, len: nat)
    requires forall i :: 0 <= i < Touched(virt, len) ==> IsUser4k(m, d, PageAt(virt / 4096, i))
    ensures forall v: Page :: Spans(virt, len, v) ==> IsUser4k(m, d, v)
  {
    hide IsUser4k, PageAt, Touched, Spans;
    forall v: Page | Spans(virt, len, v)
      ensures IsUser4k(m, d, v)
    {
      TouchedIs(virt, len, v);
    }
  }

  lemma TouchedEnd(virt: nat, len: nat)
    ensures (virt + len + 4095) / 4096 * 4096 == virt / 4096 * 4096 + Touched(virt, len) * 4096
  {
  }

  lemma NotAllUser(m: Mem, d: Dir, virt: nat, len: nat, n: nat)
    requires n < Touched(virt, len) && !IsUser4k(m, d, PageAt(virt / 4096, n))
    ensures (virt / 4096 + n) * 4096 < virt + len && !IsUser4k(m, d, PageNo(virt / 4096 + n))
    ensures Spans(virt, len, PageNo(virt / 4096 + n))
  {
    hide IsUser4k, PageNo;
  }

  /** paging_set_prot_range: it succeeds exactly if every page the range touches is a 4 KiB user leaf;
      those before the first that is not have the access asked for, and no other page changes. */
  method SetProtRange(k: Machine, virt: nat, len: nat, w: bool, ghost d: Dir) returns (ok: bool, ghost n: nat)
    requires k.Valid() && k.Current(d) && Touched(virt, len) <= PAGES
    modifies k.Repr()
    ensures k.Valid() && k.Current(d) && Prot(old(k.ram.m), d, k.ram.m, virt / 4096, n, w)
    ensures ok <==> forall i :: 0 <= i < Touched(virt, len) ==> IsUser4k(old(k.ram.m), d, PageAt(virt / 4096, i))
    ensures ok ==> n == Touched(virt, len)
    ensures !ok ==> n < Touched(virt, len) && !IsUser4k(old(k.ram.m), d, PageAt(virt / 4096, n))
    ensures ok <==> forall v: Page :: Spans(virt, len, v) ==> IsUser4k(old(k.ram.m), d, v)
    ensures ok ==> forall v: Page :: ProtShown(old(k.ram.m), d, k.ram.m, v, Spans(virt, len, v), w)
    ensures !ok ==>
            && (virt / 4096 + n) * 4096 < virt + len && !IsUser4k(old(k.ram.m), d, PageNo(virt / 4096 + n))
            && forall v: Page :: ProtShown(old(k.ram.m), d, k.ram.m, v, Spans(virt / 4096 * 4096, n * 4096, v), w)
  {
    hide ProtShown, Spans, Prot, PageAt, PageNo, IsUser4k, Space, Sane, Owned, View, Touched,
         Pmm.FrameAllocator.Valid, PhysMem.Ram.Valid;
    var q := virt / 4096;
    ghost var t := Touched(virt, len);
    TouchedEnd(virt, len);
    var va, end := q * 4096, (virt + len + 4095) / 4096 * 4096;
    n := 0;
    ProtNone(k.ram.m, d, q, w);
    while va < end
      invariant va == q * 4096 + n * 4096 && 0 <= n <= t && end == q * 4096 + t * 4096
      invariant k.Valid() && k.Current(d) && Prot(old(k.ram.m), d, k.ram.m, q, n, w)
      invariant forall i :: 0 <= i < n ==> IsUser4k(old(k.ram.m), d, PageAt(q, i))
      decreases end - va
    {
      ok := SetOne(k, va, w, old(k.ram.m), d, q, n, t);
      if !ok {
        ProtFirst(old(k.ram.m), d, k.ram.m, q, n, w);
        NotAllUser(old(k.ram.m), d, virt, len, n);
        return;
      }
      n := n + 1;
      va := va + 4096;
    }
    ProtSpans(old(k.ram.m), d, k.ram.m, virt, len, w);
    AllUser(old(k.ram.m), d, virt, len);
    ok := true;
  }

  /** Page `n` of the range, before it is its turn. */
  lemma Next(m0: Mem, d: Dir, s: Sys, q: nat, n: nat, t: nat, w: bool, va: nat)
    requires Sane(s) && Space(s.m, d) && Owned(s, d) && Prot(m0, d, s.m, q, n, w) && n < t <= PAGES &&
             va == q * 4096 + n * 4096
    ensures PageOf(va) == PageAt(q, n) && (IsUser4k(s.m, d, PageAt(q, n)) <==> IsUser4k(m0, d, PageAt(q, n)))
    ensures IsUser4k(s.m, d, PageAt(q, n)) ==>
              At(PageAt(q, n), 0) in d && d[At(PageAt(q, n), 0)] < |s.m| && Space(Reset(s, d, PageAt(q, n), w).m, d)
              && Prot(m0, d, Reset(s, d, PageAt(q, n), w).m, q, n + 1, w)
  {
    hide PageAt, PageOf, View, Reset, Space;
    RangePage(q * 4096, n, t);
    assert q * 4096 / 4096 == q;
    assert ProtAt(m0, d, s.m, q, n, w, PageAt(q, n));
    if IsUser4k(s.m, d, PageAt(q, n)) { ProtMore(m0, d, s, q, n, w); }
  }
}
