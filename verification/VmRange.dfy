/** Mapping fresh user pages and unmapping them again (vmm_alloc_user_pages and
    vmm_unmap_user_range in kernel/mm/vmm.c): the two undo each other. */
module VmRange {
  import opened Tiny
  import opened PageTables
  import opened PhysMem
  import opened VmSpec

  /** The pages mapped since some earlier state, and the frames they got. */
  type Held = map<Page, nat>

  /** Pages outside `h` look as they did in `s0`; those in `h` were unmapped then and are 4 KiB user
      leaves now. */
  ghost predicate HeldViews(s0: Sys, d0: Dir, s: Sys, d: Dir, h: Held)
  {
    && (forall v :: v !in h ==> View(s.m, d, v) == View(s0.m, d0, v))
    && (forall v :: v in h ==> View(s0.m, d0, v) == None && LeafAt(s.m, d, v, h[v]))
  }

  ghost predicate LeafAt(m: Mem, d: Dir, v: Page, f: nat)
  {
    IsUser4k(m, d, v) && Entry(m, d, At(v, 0), v.i1).frame == f
  }

  /** The frames of `h` are in use for one page each, were free in `s0`, and hold no table. */
  ghost predicate HeldFrames(s0: Sys, s: Sys, d: Dir, h: Held)
  {
    && (forall v :: v in h ==> Single(s0, s, d, h[v]))
    && (forall v, x :: v in h && x in h && h[v] == h[x] ==> v == x)
  }

  ghost predicate Single(s0: Sys, s: Sys, d: Dir, f: nat)
  {
    f < |s.used| && f < |s.refs| && f < |s0.used| && !s0.used[f] && s.used[f] && s.refs[f] == 1 && Outside(d, f)
  }

  ghost predicate InHeld(h: Held, f: nat)
  {
    exists v :: v in h && h[v] == f
  }

  /** What is in use beyond `s0` is the new tables and the frames of `h`. */
  ghost predicate HeldUsed(s0: Sys, d0: Dir, s: Sys, d: Dir, h: Held)
  {
    && |s.used| == |s0.used|
    && (forall x :: x in d && x !in d0 ==> d[x] < |s0.used| && !s0.used[d[x]])
    && (forall f :: 0 <= f < |s.used| && s.used[f] != s0.used[f] ==> s.used[f] && (New(d0, d, f) || InHeld(h, f)))
  }

  /** Every frame in use in `s0` that is no table of `d0` is as it was. */
  ghost predicate OthersKept(s0: Sys, d0: Dir, s: Sys)
  {
    && |s.m| == |s0.m| && |s.data| == |s0.data| && |s.refs| == |s0.refs|
    && forall f ::
       0 <= f < |s0.used| && f < |s0.m| && f < |s0.data| && f < |s0.refs| && s0.used[f] && Outside(d0, f) ==>
         s.m[f] == s0.m[f] && s.data[f] == s0.data[f] && s.refs[f] == s0.refs[f]
  }

  ghost predicate HeldSpace(s0: Sys, d0: Dir, s: Sys, d: Dir)
  {
    && Sane(s) && Space(s.m, d) && Owned(s, d) && Top in d0 && d[Top] == d0[Top]
    && Anchored(s0.m, d0, s.m, d) && NoEmptyBut(s.m, d, Top)
  }

  ghost predicate Start(s: Sys, d: Dir)
  {
    Sane(s) && Space(s.m, d) && Owned(s, d) && NoEmptyBut(s.m, d, Top)
  }

  ghost predicate Holds(s0: Sys, d0: Dir, s: Sys, d: Dir, h: Held)
    requires Start(s0, d0)
  {
    && HeldSpace(s0, d0, s, d) && HeldViews(s0, d0, s, d, h) && HeldFrames(s0, s, d, h)
    && HeldUsed(s0, d0, s, d, h) && OthersKept(s0, d0, s)
  }

  lemma HoldsNothing(s0: Sys, d0: Dir)
    requires Start(s0, d0)
    ensures Holds(s0, d0, s0, d0, map[])
  {
  }

  /** A fresh frame zeroed for page use. */
  ghost predicate TakenPage(s: Sys, f: nat, s1: Sys)
  {
    Fresh(s, f) && f < |s.data| && s1 == Sys(s.m, s.data[f := ZeroBytes()], s.used[f := true], s.refs[f := 1])
  }

  /** A page was taken and could not be mapped: it is given back, tables made on the way stay. */
  ghost predicate MapFailed(s: Sys, d: Dir, s': Sys, d': Dir, f: nat, s1: Sys)
  {
    TakenPage(s, f, s1) && exists s2 :: Stepped(s1, d, s2, d') && s' == s2.Free(f)
  }

  // ----- one page more -----

  ghost predicate MapsFresh(s0: Sys, d0: Dir, s: Sys, d: Dir, h: Held, v: Page, f: nat, e: Pte, s1: Sys, s2: Sys,
      d2: Dir)
  {
    && Start(s0, d0) && Holds(s0, d0, s, d, h) && v !in h && View(s0.m, d0, v) == None
    && TakenPage(s, f, s1) && e.p && e.u && e.frame == f && Mapped(s1, d, s2, d2, v, e) && Sane(s2)
  }

  lemma MapSpace(s0: Sys, d0: Dir, s: Sys, d: Dir, h: Held, v: Page, f: nat, e: Pte, s1: Sys, s2: Sys, d2: Dir)
    requires MapsFresh(s0, d0, s, d, h, v, f, e, s1, s2, d2)
    ensures HeldSpace(s0, d0, s2, d2)
  {
    AnchoredTrans(s0.m, d0, s.m, d, s2.m, d2);
    GrownNoEmpty(s.m, d, s2.m, d2, v);
  }

  lemma MapViews(s0: Sys, d0: Dir, m: Mem, d: Dir, h: Held, v: Page, e: Pte, m2: Mem, d2: Dir, s: Sys, s2: Sys)
    requires s.m == m && s2.m == m2 && HeldViews(s0, d0, s, d, h) && v !in h && View(s0.m, d0, v) == None && e.p && e.u
    requires forall x :: x in d ==> x in d2
    requires forall x :: View(m2, d2, x) == if x == v then Seen(e, 0, v) else View(m, d, x)
    requires At(v, 0) in d2 && Entry(m2, d2, At(v, 0), v.i1) == e
    ensures HeldViews(s0, d0, s2, d2, h[v := e.frame])
  {
    forall x | x in h
      ensures LeafAt(m2, d2, x, h[x])
    {
      LeafFromView(m, d, m2, d2, x);
    }
    hide View, Entry, At;
  }

  lemma LeafFromView(m: Mem, d: Dir, m': Mem, d': Dir, v: Page)
    requires IsUser4k(m, d, v) && At(v, 0) in d' && View(m', d', v) == View(m, d, v)
    ensures LeafAt(m', d', v, Entry(m, d, At(v, 0), v.i1).frame)
  {
  }

  /** Frames that were in use stay so, with their counts, and no new table takes them. */
  lemma GrownKeeps(s1: Sys, d: Dir, s2: Sys, d2: Dir, f: nat)
    requires Grown(s1, d, s2, d2) && f < |s1.used| && f < |s1.refs| && s1.used[f]
    ensures s2.used[f] && s2.refs[f] == s1.refs[f] && (Outside(d, f) ==> Outside(d2, f))
    ensures Outside(d, f) && f < |s1.m| ==> s2.m[f] == s1.m[f]
  {
    assert !New(d, d2, f);
  }

  lemma MapFrames(s0: Sys, s: Sys, d: Dir, h: Held, v: Page, f: nat, s1: Sys, s2: Sys, d2: Dir)
    requires HeldFrames(s0, s, d, h) && TakenPage(s, f, s1) && Grown(s1, d, s2, d2) && Owned(s, d)
    requires f < |s0.used| && !s0.used[f]
    ensures HeldFrames(s0, s2, d2, h[v := f])
  {
    forall g | Single(s0, s, d, g) || g == f
      ensures Single(s0, s2, d2, g)
    {
      assert Outside(d, g);
      GrownKeeps(s1, d, s2, d2, g);
    }
  }

  lemma MapUsed(s0: Sys, d0: Dir, s: Sys, d: Dir, h: Held, v: Page, f: nat, s1: Sys, s2: Sys, d2: Dir)
    requires HeldUsed(s0, d0, s, d, h) && TakenPage(s, f, s1) && Grown(s1, d, s2, d2) && Owned(s2, d2) && v !in h
    requires forall x :: x in d0 ==> x in d && d[x] == d0[x]
    ensures HeldUsed(s0, d0, s2, d2, h[v := f])
  {
    var h2 := h[v := f];
    assert v in h2 && h2[v] == f;
    forall x | x in d2 && x !in d0
      ensures d2[x] < |s0.used| && !s0.used[d2[x]]
    {
    }
    forall g | 0 <= g < |s2.used| && s2.used[g] != s0.used[g]
      ensures s2.used[g] && (New(d0, d2, g) || InHeld(h2, g))
    {
      if New(d, d2, g) {
        var x :| x in d2 && x !in d && d2[x] == g;
      } else if g != f {
        assert s.used[g] != s0.used[g];
        if New(d0, d, g) {
          var x :| x in d && x !in d0 && d[x] == g;
          assert x in d2 && d2[x] == g;
        } else {
          var x :| x in h && h[x] == g;
          assert x in h2 && h2[x] == g;
        }
      }
    }
  }

  lemma MapOthers(s0: Sys, d0: Dir, s: Sys, d: Dir, h: Held, f: nat, s1: Sys, s2: Sys, d2: Dir)
    requires HeldUsed(s0, d0, s, d, h) && TakenPage(s, f, s1) && Grown(s1, d, s2, d2) && OthersKept(s0, d0, s)
    requires forall x :: x in d0 ==> x in d && d[x] == d0[x]
    ensures OthersKept(s0, d0, s2)
  {
    forall g | 0 <= g < |s0.used| && g < |s0.m| && g < |s0.data| && g < |s0.refs| && s0.used[g] && Outside(d0, g)
      ensures s2.m[g] == s0.m[g] && s2.data[g] == s0.data[g] && s2.refs[g] == s0.refs[g]
    {
      assert Outside(d, g);
      GrownKeeps(s1, d, s2, d2, g);
    }
  }

  /** Mapping page `v` to a fresh frame adds it to what is held. */
  lemma HoldsMore(s0: Sys, d0: Dir, s: Sys, d: Dir, h: Held, v: Page, f: nat, e: Pte, s1: Sys, s2: Sys, d2: Dir)
    requires MapsFresh(s0, d0, s, d, h, v, f, e, s1, s2, d2)
    ensures Holds(s0, d0, s2, d2, h[v := f])
  {
    MapSpace(s0, d0, s, d, h, v, f, e, s1, s2, d2);
    MapViews(s0, d0, s.m, d, h, v, e, s2.m, d2, s, s2);
    MapFrames(s0, s, d, h, v, f, s1, s2, d2);
    MapUsed(s0, d0, s, d, h, v, f, s1, s2, d2);
    MapOthers(s0, d0, s, d, h, f, s1, s2, d2);
  }

  /** Page `v` of `h` is a user page of zeros with write access `w`. */
  ghost predicate BlankAt(s: Sys, d: Dir, h: Held, w: bool, v: Page)
  {
    v in h ==>
      && h[v] < |s.data| && (forall i :: 0 <= i < 4096 ==> s.data[h[v]][i] == 0)
      && View(s.m, d, v) == Some(Leaf(h[v], w, true))
  }

  ghost predicate Blank(s: Sys, d: Dir, h: Held, w: bool)
  {
    forall v: Page {:trigger BlankAt(s, d, h, w, v)} :: BlankAt(s, d, h, w, v)
  }

  lemma BlankNone(s: Sys, d: Dir, w: bool)
    ensures Blank(s, d, map[], w)
  {
    forall v: Page
      ensures BlankAt(s, d, map[], w, v)
    {
    }
  }

  lemma BlankMore(s0: Sys, d0: Dir, s: Sys, d: Dir, h: Held, v: Page, f: nat, e: Pte, s1: Sys, s2: Sys, d2: Dir)
    requires MapsFresh(s0, d0, s, d, h, v, f, e, s1, s2, d2) && Blank(s, d, h, e.w)
    ensures Blank(s2, d2, h[v := f], e.w)
  {
    hide View, Space, Owned, Anchored;
    var h2 := h[v := f];
    forall x: Page
      ensures BlankAt(s2, d2, h2, e.w, x)
    {
      assert BlankAt(s, d, h, e.w, x);
      if x in h { assert Single(s0, s, d, h[x]); }
    }
  }

  // ----- a page that could not be mapped -----

  /** All of Holds but that no table is empty: what a failed call leaves. */
  ghost predicate Partly(s0: Sys, d0: Dir, s: Sys, d: Dir, h: Held)
  {
    && Sane(s) && Space(s.m, d) && Owned(s, d) && Top in d0 && d[Top] == d0[Top]
    && HeldViews(s0, d0, s, d, h) && HeldFrames(s0, s, d, h) && HeldUsed(s0, d0, s, d, h) && OthersKept(s0, d0, s)
  }

  ghost predicate FailsAfter(s0: Sys, d0: Dir, s: Sys, d: Dir, h: Held, v: Page, f: nat, s1: Sys, t: Sys, s2: Sys,
      d2: Dir)
  {
    && Start(s0, d0) && Holds(s0, d0, s, d, h) && v !in h
    && TakenPage(s, f, s1) && Stepped(s1, d, t, d2) && s2 == t.Free(f) && Sane(s2)
  }

  lemma FailViews(s0: Sys, d0: Dir, s: Sys, d: Dir, h: Held, s2: Sys, d2: Dir)
    requires HeldViews(s0, d0, s, d, h) && SameViews(s.m, d, s2.m, d2) && forall x :: x in d ==> x in d2
    ensures HeldViews(s0, d0, s2, d2, h)
  {
    forall x | x in h
      ensures LeafAt(s2.m, d2, x, h[x])
    {
      assert LeafAt(s.m, d, x, h[x]);
      LeafFromView(s.m, d, s2.m, d2, x);
    }
    hide View, Entry, At;
  }

  lemma FailFrames(s0: Sys, d2: Dir, h: Held, v: Page, f: nat, t: Sys)
    requires v !in h && HeldFrames(s0, t, d2, h[v := f])
    ensures HeldFrames(s0, t.Free(f), d2, h)
  {
    var h2 := h[v := f];
    assert v in h2 && h2[v] == f;
    forall x | x in h
      ensures Single(s0, t.Free(f), d2, h[x])
    {
      assert x in h2 && h2[x] == h[x] && Single(s0, t, d2, h2[x]);
    }
    forall x, y | x in h && y in h && h[x] == h[y]
      ensures x == y
    {
      assert x in h2 && y in h2 && h2[x] == h2[y];
    }
  }

  lemma FailUsed(s0: Sys, d0: Dir, d2: Dir, h: Held, v: Page, f: nat, t: Sys)
    requires v !in h && HeldUsed(s0, d0, t, d2, h[v := f]) && f < |s0.used| && !s0.used[f]
    ensures HeldUsed(s0, d0, t.Free(f), d2, h)
  {
    var h2, s2 := h[v := f], t.Free(f);
    forall g | 0 <= g < |s2.used| && s2.used[g] != s0.used[g]
      ensures s2.used[g] && (New(d0, d2, g) || InHeld(h, g))
    {
      assert g != f;
      if InHeld(h2, g) {
        var x :| x in h2 && h2[x] == g;
        assert x in h && h[x] == g;
      }
    }
  }

  /** The frame given back was free before, so it is none of those held and no table. */
  lemma FailFree(s0: Sys, d0: Dir, s: Sys, d: Dir, h: Held, v: Page, f: nat, s1: Sys, t: Sys, s2: Sys, d2: Dir)
    requires FailsAfter(s0, d0, s, d, h, v, f, s1, t, s2, d2)
    ensures HeldFrames(s0, s2, d2, h) && HeldUsed(s0, d0, s2, d2, h) && OthersKept(s0, d0, s2) && Owned(s2, d2)
  {
    hide Space, View, HeldViews, HeldFrames, OthersKept, SameViews, NoEmptyBut;
    MapFrames(s0, s, d, h, v, f, s1, t, d2);
    MapUsed(s0, d0, s, d, h, v, f, s1, t, d2);
    MapOthers(s0, d0, s, d, h, f, s1, t, d2);
    FailFrames(s0, d2, h, v, f, t);
    FailUsed(s0, d0, d2, h, v, f, t);
    OthersFree(s0, d0, t, f);
    assert Outside(d, f);
    GrownKeeps(s1, d, t, d2, f);
  }

  lemma OthersFree(s0: Sys, d0: Dir, t: Sys, f: nat)
    requires OthersKept(s0, d0, t)
    ensures OthersKept(s0, d0, t.Free(f))
  {
  }

  /** The pages held so far are held still, and no other page or frame in use changes. */
  lemma FailHolds(s0: Sys, d0: Dir, s: Sys, d: Dir, h: Held, v: Page, f: nat, s1: Sys, s2: Sys, d2: Dir, w: bool)
    requires Start(s0, d0) && Holds(s0, d0, s, d, h) && v !in h && Sane(s2) && Blank(s, d, h, w)
    requires (s2 == s && d2 == d) || MapFailed(s, d, s2, d2, f, s1)
    ensures Partly(s0, d0, s2, d2, h) && Blank(s2, d2, h, w)
  {
    if s2 != s || d2 != d {
      var t :| Stepped(s1, d, t, d2) && s2 == t.Free(f);
      FailViews(s0, d0, s, d, h, s2, d2);
      FailFree(s0, d0, s, d, h, v, f, s1, t, s2, d2);
      FailBlank(s0, d0, s, d, h, v, f, s1, t, s2, d2, w);
      hide HeldViews, HeldFrames, HeldUsed, OthersKept, Space, Blank;
    }
  }

  lemma FailBlank(s0: Sys, d0: Dir, s: Sys, d: Dir, h: Held, v: Page, f: nat, s1: Sys, t: Sys, s2: Sys, d2: Dir,
      w: bool)
    requires FailsAfter(s0, d0, s, d, h, v, f, s1, t, s2, d2) && Blank(s, d, h, w)
    ensures Blank(s2, d2, h, w)
  {
    hide View, Space, Owned, Anchored;
    forall x: Page
      ensures BlankAt(s2, d2, h, w, x)
    {
      assert BlankAt(s, d, h, w, x);
      if x in h { assert Single(s0, s, d, h[x]); }
    }
  }

  // ----- one page less -----

  function Less(h: Held, v: Page): (r: Held)
    ensures forall x :: x in r <==> x in h && x != v
    ensures forall x :: x in r ==> r[x] == h[x]
  {
    map x | x in h && x != v :: h[x]
  }

  lemma HeldUnmapOk(s0: Sys, d0: Dir, s: Sys, d: Dir, h: Held, v: Page)
    requires Start(s0, d0) && Holds(s0, d0, s, d, h) && v in h
    ensures IsUser4k(s.m, d, v) && LeafSafe(s, d, v) && UnmapOk(s, d, v)
    ensures Cleared(s, d, v) == Sys(Poke(s.m, d[At(v, 0)], v.i1, ZERO), s.data,
                                     s.used[h[v] := false], s.refs[h[v] := 0])
  {
    assert LeafAt(s.m, d, v, h[v]) && Single(s0, s, d, h[v]);
  }

  /** Unmapping takes the page away and no other. */
  lemma UnmapShows(s: Sys, d: Dir, v: Page)
    requires Sane(s) && Space(s.m, d) && Owned(s, d) && At(v, 0) in d && LeafSafe(s, d, v)
    ensures UnmapOk(s, d, v)
    ensures forall x :: View(Unmap(s, d, v).0.m, Unmap(s, d, v).1, x) == if x == v then None else View(s.m, d, x)
  {
    ClearStep(s, d, v);
    CascadePrunes(Cleared(s, d, v), d, v, 0);
    hide Space, Owned, View, Cascaded, Cleared;
  }

  lemma UnmapSpace(s0: Sys, d0: Dir, s: Sys, d: Dir, h: Held, v: Page)
    requires Start(s0, d0) && Holds(s0, d0, s, d, h) && v in h && UnmapOk(s, d, v) && LeafSafe(s, d, v)
    ensures Sane(Unmap(s, d, v).0) && HeldSpace(s0, d0, Unmap(s, d, v).0, Unmap(s, d, v).1)
    ensures Pruned(Cleared(s, d, v), d, Unmap(s, d, v).0, Unmap(s, d, v).1)
    ensures forall x :: View(Unmap(s, d, v).0.m, Unmap(s, d, v).1, x) == if x == v then None else View(s.m, d, x)
  {
    ClearStep(s, d, v);
    ClearAnchored(s0, d0, s, d, v);
    var s1 := Cleared(s, d, v);
    CascadePrunes(s1, d, v, 0);
    CascadeNoEmpty(s1, d, v, 0);
    CascadeAnchored(s0.m, d0, s1, d, v, 0);
    hide Space, Owned, NoEmptyBut, Anchored, View, Cascaded, Cleared;
  }

  lemma ClearAnchored(s0: Sys, d0: Dir, s: Sys, d: Dir, v: Page)
    requires Space(s0.m, d0) && Space(s.m, d) && Anchored(s0.m, d0, s.m, d) && View(s0.m, d0, v) == None &&
             UnmapOk(s, d, v)
    ensures Anchored(s0.m, d0, Cleared(s, d, v).m, d)
  {
    PokeEntry(s.m, d, At(v, 0), v.i1, ZERO);
    assert !IsLeaf(Entry(s0.m, d0, At(v, 0), v.i1), 0);
    AnchoredLess(s0.m, d0, s.m, d, Cleared(s, d, v).m, d, At(v, 0), v.i1);
  }

  lemma UnmapViews(s0: Sys, d0: Dir, s: Sys, d: Dir, h: Held, v: Page, s1: Sys, s2: Sys, d2: Dir)
    requires HeldViews(s0, d0, s, d, h) && v in h && Space(s.m, d) && Space(s1.m, d) && Space(s2.m, d2)
    requires forall x :: View(s2.m, d2, x) == if x == v then None else View(s.m, d, x)
    requires forall x :: View(s2.m, d2, x) == View(s1.m, d, x)
    requires OnlyCleared(s1.m, d, s2.m, d2) && forall x :: x in d2 ==> x in d
    ensures HeldViews(s0, d0, s2, d2, Less(h, v))
  {
    hide View, Entry, At, Space, LeafAt, OnlyCleared;
    forall x | x in h && x != v
      ensures LeafAt(s2.m, d2, x, h[x])
    {
      UnmapLeaf(s.m, d, s1.m, s2.m, d2, x, h[x]);
    }
  }

  lemma UnmapLeaf(m: Mem, d: Dir, m1: Mem, m2: Mem, d2: Dir, v: Page, f: nat)
    requires LeafAt(m, d, v, f) && Space(m1, d) && Space(m2, d2)
    requires View(m2, d2, v) == View(m, d, v) == View(m1, d, v)
    requires OnlyCleared(m1, d, m2, d2) && forall x :: x in d2 ==> x in d
    ensures LeafAt(m2, d2, v, f)
  {
    LeafFromView(m, d, m1, d, v);
    LeafStays(m1, d, m2, d2, v);
  }

  /** A mapped 4 KiB leaf is still one after entries were cleared, if it translates alike. */
  lemma LeafStays(m: Mem, d: Dir, m': Mem, d': Dir, v: Page)
    requires IsUser4k(m, d, v) && View(m', d', v) == View(m, d, v) && Space(m, d) && Space(m', d')
    requires OnlyCleared(m, d, m', d') && forall x :: x in d' ==> x in d
    ensures LeafAt(m', d', v, Entry(m, d, At(v, 0), v.i1).frame)
  {
    assert At(v, 0).up == At(v, 1) && At(v, 1).up == At(v, 2);
    var l := Deep(d', v);
    StepDown(m, d, v, l);
    StepDown(m', d', v, l);
  }

  lemma UnmapFrames(s0: Sys, s: Sys, d: Dir, h: Held, v: Page, s1: Sys, s2: Sys, d2: Dir)
    requires HeldFrames(s0, s, d, h) && v in h && s1.used == s.used[h[v] := false] && s1.refs == s.refs[h[v] := 0]
    requires Shrunk(s1, d, s2, d2)
    ensures HeldFrames(s0, s2, d2, Less(h, v))
  {
    forall x | x in h && x != v
      ensures Single(s0, s2, d2, h[x])
    {
      assert Single(s0, s, d, h[x]) && !New(d2, d, h[x]);
    }
  }

  lemma UnmapUsed(s0: Sys, d0: Dir, s: Sys, d: Dir, h: Held, v: Page, s1: Sys, s2: Sys, d2: Dir)
    requires HeldUsed(s0, d0, s, d, h) && v in h && Single(s0, s, d, h[v]) && s1.used == s.used[h[v] := false]
    requires Shrunk(s1, d, s2, d2) && forall x :: x in d0 ==> x in d2 && x in d && d[x] == d0[x]
    ensures HeldUsed(s0, d0, s2, d2, Less(h, v))
  {
    forall g | 0 <= g < |s2.used| && s2.used[g] != s0.used[g]
      ensures s2.used[g] && (New(d0, d2, g) || InHeld(Less(h, v), g))
    {
      assert !New(d2, d, g);
      assert g != h[v] && s.used[g] != s0.used[g];
      if New(d0, d, g) {
        var x :| x in d && x !in d0 && d[x] == g;
        assert x in d2 && d2[x] == g;
      } else {
        var x :| x in h && h[x] == g;
        assert x in Less(h, v) && Less(h, v)[x] == g;
      }
    }
  }

  lemma UnmapOthers(s0: Sys, d0: Dir, s: Sys, d: Dir, h: Held, v: Page, s1: Sys, s2: Sys, d2: Dir)
    requires HeldUsed(s0, d0, s, d, h) && v in h && Single(s0, s, d, h[v]) && OthersKept(s0, d0, s)
    requires s1.data == s.data && s1.refs == s.refs[h[v] := 0] && |s1.m| == |s.m|
    requires forall f :: 0 <= f < |s.m| && Outside(d, f) ==> s1.m[f] == s.m[f]
    requires Shrunk(s1, d, s2, d2) && forall x :: x in d0 ==> x in d && d[x] == d0[x]
    ensures OthersKept(s0, d0, s2)
  {
    forall g | 0 <= g < |s0.used| && g < |s0.m| && g < |s0.data| && g < |s0.refs| && s0.used[g] && Outside(d0, g)
      ensures s2.m[g] == s0.m[g] && s2.data[g] == s0.data[g] && s2.refs[g] == s0.refs[g]
    {
      assert Outside(d, g);
    }
  }

  /** Unmapping a held page takes it out of what is held. */
  lemma HoldsLess(s0: Sys, d0: Dir, s: Sys, d: Dir, h: Held, v: Page)
    requires Start(s0, d0) && Holds(s0, d0, s, d, h) && v in h
    ensures UnmapOk(s, d, v) && Holds(s0, d0, Unmap(s, d, v).0, Unmap(s, d, v).1, Less(h, v))
  {
    HeldUnmapOk(s0, d0, s, d, h, v);
    UnmapSpace(s0, d0, s, d, h, v);
    ClearStep(s, d, v);
    var s1, s2, d2 := Cleared(s, d, v), Unmap(s, d, v).0, Unmap(s, d, v).1;
    PokeOutside(s, d, v);
    hide Space, Owned, View, Cascaded, Cleared, Entry, At, OnlyCleared, NoEmptyBut, Unmap, Sane, LeafSafe, UnmapOk,
         IsUser4k;
    UnmapViews(s0, d0, s, d, h, v, s1, s2, d2);
    UnmapFrames(s0, s, d, h, v, s1, s2, d2);
    UnmapUsed(s0, d0, s, d, h, v, s1, s2, d2);
    UnmapOthers(s0, d0, s, d, h, v, s1, s2, d2);
  }

  lemma PokeOutside(s: Sys, d: Dir, v: Page)
    requires UnmapOk(s, d, v)
    ensures |Cleared(s, d, v).m| == |s.m|
    ensures forall f :: 0 <= f < |s.m| && Outside(d, f) ==> Cleared(s, d, v).m[f] == s.m[f]
  {
  }

  /** With nothing held any more, the bitmap, the free count, every translation and the set of
      tables are those of the start. */
  lemma HoldsNoneIsStart(s0: Sys, d0: Dir, s: Sys, d: Dir)
    requires Start(s0, d0) && Holds(s0, d0, s, d, map[])
    ensures d == d0 && s.used == s0.used && SameViews(s0.m, d0, s.m, d) && OthersKept(s0, d0, s)
  {
    SameTables(s0.m, d0, s.m, d);
    assert forall f :: 0 <= f < |s.used| ==> s.used[f] == s0.used[f];
  }

  /** What was unmapped and could not be mapped has no 1 GiB leaf in its way. */
  lemma FailedNoGiant(s0: Sys, d0: Dir, s: Sys, d: Dir, h: Held, s2: Sys, d2: Dir, f: nat, s1: Sys, v: Page)
    requires Start(s0, d0) && Holds(s0, d0, s, d, h) && v !in h && View(s0.m, d0, v) == None
    requires (s2 == s && d2 == d) || MapFailed(s, d, s2, d2, f, s1)
    ensures !Giant(s2.m, d2, v)
  {
    hide View, Space, Giant;
    assert View(s.m, d, v) == None;
    if s2 == s && d2 == d {
      NoGiant(s.m, d, v);
    } else {
      var t :| Stepped(s1, d, t, d2) && s2 == t.Free(f);
      assert View(t.m, d2, v) == None;
      NoGiant(t.m, d2, v);
    }
  }

  lemma HoldsFacts(s0: Sys, d0: Dir, s: Sys, d: Dir, h: Held)
    requires Start(s0, d0) && Holds(s0, d0, s, d, h)
    ensures Space(s.m, d) && Owned(s, d) && Top in d0 && d[Top] == d0[Top]
    ensures forall f, s1 :: TakenPage(s, f, s1) ==> Owned(s1, d)
  {
  }

  lemma PartlyFacts(s0: Sys, d0: Dir, s: Sys, d: Dir, h: Held)
    requires Partly(s0, d0, s, d, h)
    ensures Space(s.m, d) && Owned(s, d) && Top in d0 && d[Top] == d0[Top]
  {
  }

  lemma HoldsPartly(s0: Sys, d0: Dir, s: Sys, d: Dir, h: Held)
    requires Start(s0, d0) && Holds(s0, d0, s, d, h)
    ensures Partly(s0, d0, s, d, h)
  {
  }

  /** The `n` pages from page number `q` on. */
  ghost function Pages(q: nat, n: nat): set<Page>
  {
    set i | 0 <= i < n :: PageAt(q, i)
  }

  lemma TouchedIs(virt: nat, len: nat, v: Page)
    ensures v in Pages(virt / 4096, Touched(virt, len)) <==> Spans(virt, len, v)
  {
    hide PageNo;
    var q, n := virt / 4096, Touched(virt, len);
    if v in Pages(q, n) {
      var i :| 0 <= i < n && v == PageAt(q, i);
      assert (q + i) * 4096 < virt + len && v == PageNo(q + i);
    }
    if Spans(virt, len, v) {
      var r: nat :| q <= r && r * 4096 < virt + len && v == PageNo(r);
      assert v == PageAt(q, r - q) && r - q < n;
    }
  }

  /** Of the pages, those of `h` among the first `n` from number `q` on are unmapped, and all others as they were. */
  ghost predicate Less1(m0: Mem, d0: Dir, m: Mem, d: Dir, h: Held, q: nat, n: nat, v: Page)
  {
    View(m, d, v) == if v in h && v in Pages(q, n) then None else View(m0, d0, v)
  }

  ghost predicate LessShown(m0: Mem, d0: Dir, m: Mem, d: Dir, h: Held, q: nat, n: nat)
  {
    forall v: Page {:trigger Less1(m0, d0, m, d, h, q, n, v)} :: Less1(m0, d0, m, d, h, q, n, v)
  }

  lemma LessNone(m: Mem, d: Dir, h: Held, q: nat)
    ensures LessShown(m, d, m, d, h, q, 0)
  {
    hide View;
    PagesNone(h, q);
    forall v: Page
      ensures Less1(m, d, m, d, h, q, 0, v)
    {
    }
  }

  lemma LessMore(m0: Mem, d0: Dir, m: Mem, d: Dir, m': Mem, d': Dir, h: Held, q: nat, n: nat)
    requires LessShown(m0, d0, m, d, h, q, n)
    requires forall x :: View(m', d', x) == if x == PageAt(q, n) && x in h then None else View(m, d, x)
    ensures LessShown(m0, d0, m', d', h, q, n + 1)
  {
    PagesMore(q, n);
    var k := n + 1;
    hide View, Pages, PageAt;
    forall v: Page
      ensures Less1(m0, d0, m', d', h, q, k, v)
    {
      assert Less1(m0, d0, m, d, h, q, n, v);
    }
  }

  lemma LessSpans(m0: Mem, d0: Dir, m: Mem, d: Dir, h: Held, virt: nat, len: nat)
    requires LessShown(m0, d0, m, d, h, virt / 4096, Touched(virt, len))
    ensures forall v: Page :: View(m, d, v) == if v in h && Spans(virt, len, v) then None else View(m0, d0, v)
  {
    hide View, Pages, Touched, Spans;
    forall v: Page
      ensures View(m, d, v) == if v in h && Spans(virt, len, v) then None else View(m0, d0, v)
    {
      TouchedIs(virt, len, v);
      assert Less1(m0, d0, m, d, h, virt / 4096, Touched(virt, len), v);
    }
  }

  ghost predicate Unmapped(m: Mem, d: Dir, q: nat, n: nat)
  {
    forall i :: 0 <= i < n ==> View(m, d, PageAt(q, i)) == None
  }

  lemma PagesMore(q: nat, n: nat)
    ensures Pages(q, n + 1) == Pages(q, n) + {PageAt(q, n)}
    ensures n < PAGES ==> PageAt(q, n) !in Pages(q, n)
  {
    hide PageAt;
    forall i | 0 <= i < n && n < PAGES
      ensures PageAt(q, i) != PageAt(q, n)
    {
      PagesDistinct(q, i, n);
    }
  }

  /** Page `i` of a range is unmapped if the range is, and is not among those before it. */
  lemma NextPage(m: Mem, d: Dir, virt: nat, i: nat, n: nat)
    requires i < n <= PAGES && Unmapped(m, d, virt / 4096, n)
    ensures View(m, d, PageOf(virt + i * 4096)) == None && (virt + i * 4096) % 4096 == virt % 4096
    ensures PageOf(virt + i * 4096) !in Pages(virt / 4096, i)
    ensures Pages(virt / 4096, i + 1) == Pages(virt / 4096, i) + {PageOf(virt + i * 4096)}
  {
    RangePage(virt, i, n);
    PagesMore(virt / 4096, i);
  }

  lemma NotHeldNotUser(s0: Sys, d0: Dir, s: Sys, d: Dir, h: Held, v: Page)
    requires Start(s0, d0) && Holds(s0, d0, s, d, h) && v !in h && !IsUser4k(s0.m, d0, v)
    ensures !IsUser4k(s.m, d, v)
  {
    if IsUser4k(s.m, d, v) {
      NotAnchored(s0.m, d0, s.m, d, v, 0);
    }
  }

  /** What is held after unmapping the `n` pages from page number `q` on. */
  ghost function LessPages(h: Held, q: nat, n: nat): Held
  {
    map x | x in h && x !in Pages(q, n) :: h[x]
  }

  lemma PagesNone(h: Held, q: nat)
    ensures Pages(q, 0) == {} && LessPages(h, q, 0) == h
  {
  }

  /** Every page of the range is held or was no 4 KiB user leaf at the start. */
  ghost predicate MayUnmap(s0: Sys, d0: Dir, h: Held, q: nat, n: nat)
  {
    forall i :: 0 <= i < n ==> PageAt(q, i) in h || !IsUser4k(s0.m, d0, PageAt(q, i))
  }

  /** One round of vmm_unmap_user_range: a held page is unmapped, any other is refused. */
  lemma UnmapRound(s0: Sys, d0: Dir, s: Sys, d: Dir, h: Held, q: nat, i: nat, n: nat)
    requires Start(s0, d0) && i < n <= PAGES && MayUnmap(s0, d0, h, q, n) && Holds(s0, d0, s, d, LessPages(h, q, i))
    ensures IsUser4k(s.m, d, PageAt(q, i)) ==>
              && LeafSafe(s, d, PageAt(q, i)) && UnmapOk(s, d, PageAt(q, i))
              && Holds(s0, d0, Unmap(s, d, PageAt(q, i)).0, Unmap(s, d, PageAt(q, i)).1, LessPages(h, q, i + 1))
    ensures IsUser4k(s.m, d, PageAt(q, i)) <==> PageAt(q, i) in h
    ensures !IsUser4k(s.m, d, PageAt(q, i)) ==> Holds(s0, d0, s, d, LessPages(h, q, i + 1))
  {
    var v, g := PageAt(q, i), LessPages(h, q, i);
    PagesMore(q, i);
    hide Holds, Start, IsUser4k, LeafSafe, UnmapOk, Unmap, Pages, PageAt;
    if v in g {
      HeldUnmapOk(s0, d0, s, d, g, v);
      HoldsLess(s0, d0, s, d, g, v);
      assert Less(g, v) == LessPages(h, q, i + 1);
    } else {
      NotHeldNotUser(s0, d0, s, d, g, v);
      assert g == LessPages(h, q, i + 1);
    }
  }

  lemma RangeIsHeld(s0: Sys, d0: Dir, h: Held, virt: nat, n: nat)
    requires virt % 4096 == 0 && h.Keys == Pages(virt / 4096, n)
    ensures Touched(virt, n * 4096) == n && MayUnmap(s0, d0, h, virt / 4096, n) && LessPages(h, virt / 4096, n) == map[]
  {
    forall i | 0 <= i < n
      ensures PageAt(virt / 4096, i) in h
    {
      assert PageAt(virt / 4096, i) in Pages(virt / 4096, n);
    }
    assert forall x :: x in h ==> x in h.Keys;
  }
}
