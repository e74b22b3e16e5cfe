/** All address spaces at once: each task has its own tables and its own user frames, and no step
    of one task is seen by another. */
module VmWorld {
  import opened Tiny
  import opened PageTables
  import opened PhysMem
  import opened VmSpec
  import opened VmRange
  import opened VmFork
  import opened VmChild
  import opened VmDestroy
  import opened VmLife
  import opened VmProt

  /** Memory, allocator, and the tables of every task's address space; an empty `Dir` is none. */
  datatype World = World(s: Sys, ds: seq<Dir>)

  /** Page `v` is a user page onto memory, in frame `f`. */
  predicate UserFrame(m: Mem, d: Dir, v: Page, f: nat)
  {
    var a := View(m, d, v);
    a.Some? && a.value.u && a.value.frame == f && f < |m|
  }

  ghost predicate IsTable(d: Dir, f: nat)
  {
    exists x :: x in d && d[x] == f
  }

  ghost predicate IsPage(m: Mem, d: Dir, f: nat)
  {
    exists v :: UserFrame(m, d, v, f)
  }

  /** Frame `f` holds a table or a user page of the space. */
  ghost predicate Belongs(m: Mem, d: Dir, f: nat)
  {
    IsTable(d, f) || IsPage(m, d, f)
  }

  /** User pages are 4 KiB leaves onto frames of their own. */
  ghost predicate UserOwned(s: Sys, d: Dir)
  {
    && (forall v, f :: UserFrame(s.m, d, v, f) ==> PageOwned(s, d, v, f))
    && (forall v, x, f :: UserFrame(s.m, d, v, f) && UserFrame(s.m, d, x, f) ==> v == x)
  }

  ghost predicate PageOwned(s: Sys, d: Dir, v: Page, f: nat)
  {
    IsUser4k(s.m, d, v) && f < |s.used| && f < |s.refs| && s.used[f] && s.refs[f] == 1 && Outside(d, f)
  }

  ghost predicate OwnOk(s: Sys, d: Dir)
  {
    d == map[] || (Space(s.m, d) && Owned(s, d) && UserOwned(s, d))
  }

  /** What belongs to one task belongs to no other. */
  ghost predicate Apart(w: World)
  {
    forall a, b, f ::
      0 <= a < |w.ds| && 0 <= b < |w.ds| && Belongs(w.s.m, w.ds[a], f) && Belongs(w.s.m, w.ds[b], f) ==> a == b
  }

  ghost predicate WorldOk(w: World)
  {
    Sane(w.s) && (forall a :: 0 <= a < |w.ds| ==> OwnOk(w.s, w.ds[a])) && Apart(w)
  }

  /** The bytes task `d` reads at user page `v`. */
  function Contents(s: Sys, d: Dir, v: Page): Option<Bytes>
  {
    var a := View(s.m, d, v);
    if a.Some? && a.value.u && a.value.frame < |s.data| then Some(s.data[a.value.frame]) else None
  }

  /** The space looks the same: same tables, same translations, same user memory. */
  ghost predicate Untouched(s: Sys, d: Dir, s': Sys, d': Dir)
  {
    d' == d && SameViews(s.m, d, s'.m, d') && forall v :: Contents(s', d', v) == Contents(s, d, v)
  }

  // ----- steps that keep to their own -----

  ghost predicate SameSize(s: Sys, s': Sys)
  {
    |s.m| == |s.data| == |s.used| == |s.refs| == |s'.m| == |s'.data| == |s'.used| == |s'.refs|
  }

  /** Frames in use that are not the space's own are kept, and what the space has afterwards was
      its own or free. */
  ghost predicate Local(s: Sys, d: Dir, s': Sys, d': Dir)
  {
    && SameSize(s, s')
    && (forall f :: 0 <= f < |s.used| && s.used[f] && !Belongs(s.m, d, f) ==> FrameKept(s, s', f))
    && (forall f :: 0 <= f < |s.used| && Belongs(s'.m, d', f) ==> Belongs(s.m, d, f) || !s.used[f])
  }

  lemma BelongsUsed(s: Sys, d: Dir, f: nat)
    requires Sane(s) && OwnOk(s, d) && Belongs(s.m, d, f)
    ensures f < |s.used| && s.used[f]
  {
    if IsTable(d, f) {
    } else {
      var v :| UserFrame(s.m, d, v, f);
      assert PageOwned(s, d, v, f);
    }
  }

  ghost predicate OwnKept(s: Sys, d: Dir, s': Sys)
  {
    SameSize(s, s') && forall f: nat :: f < |s.used| && Belongs(s.m, d, f) ==> FrameKept(s, s', f)
  }

  lemma KeptViews(s: Sys, d: Dir, s': Sys)
    requires Space(s.m, d) && Owned(s, d) && OwnKept(s, d, s')
    ensures Space(s'.m, d) && Owned(s', d) && SameViews(s.m, d, s'.m, d) && Agree(s.m, s'.m, d)
  {
    forall x | x in d
      ensures s'.m[d[x]] == s.m[d[x]] && s'.used[d[x]]
    {
      assert IsTable(d, d[x]);
      assert FrameKept(s, s', d[x]);
    }
    SpaceFrame(s.m, s'.m, d);
  }

  lemma KeptPage(s: Sys, d: Dir, s': Sys, v: Page, f: nat)
    requires OwnKept(s, d, s') && PageOwned(s, d, v, f) && UserFrame(s.m, d, v, f) && Agree(s.m, s'.m, d)
    ensures PageOwned(s', d, v, f) && s'.data[f] == s.data[f]
  {
    assert IsPage(s.m, d, f);
    assert FrameKept(s, s', f);
  }

  lemma SameBelongs(m: Mem, m': Mem, d: Dir)
    requires |m'| == |m| && SameViews(m, d, m', d)
    ensures forall f :: Belongs(m', d, f) <==> Belongs(m, d, f)
    ensures forall v, f :: UserFrame(m', d, v, f) <==> UserFrame(m, d, v, f)
  {
    assert forall v, f :: UserFrame(m', d, v, f) <==> UserFrame(m, d, v, f);
  }

  lemma KeptContents(s: Sys, d: Dir, s': Sys, v: Page)
    requires OwnKept(s, d, s') && View(s'.m, d, v) == View(s.m, d, v)
    ensures Contents(s', d, v) == Contents(s, d, v)
  {
    hide View;
    var a := View(s.m, d, v);
    if a.Some? && a.value.u && a.value.frame < |s.m| {
      assert UserFrame(s.m, d, v, a.value.frame);
      assert IsPage(s.m, d, a.value.frame);
      assert FrameKept(s, s', a.value.frame);
    }
  }

  /** A space whose frames are kept is untouched. */
  lemma KeptUntouched(s: Sys, d: Dir, s': Sys)
    requires OwnOk(s, d) && OwnKept(s, d, s')
    ensures OwnOk(s', d) && Untouched(s, d, s', d) && forall f :: Belongs(s'.m, d, f) <==> Belongs(s.m, d, f)
  {
    hide Space, Owned, UserFrame, PageOwned, OwnKept, Contents, View, Agree;
    assert |s'.m| == |s.m| by { KeptSize(s, d, s'); }
    if d != map[] {
      KeptViews(s, d, s');
      SameBelongs(s.m, s'.m, d);
      forall v, f: nat | UserFrame(s.m, d, v, f)
        ensures PageOwned(s', d, v, f)
      {
        KeptPage(s, d, s', v, f);
      }
    } else {
      assert SameViews(s.m, d, s'.m, d) by { NoViews(s.m); NoViews(s'.m); }
      SameBelongs(s.m, s'.m, d);
    }
    forall v
      ensures Contents(s', d, v) == Contents(s, d, v)
    {
      KeptContents(s, d, s', v);
    }
  }

  lemma KeptSize(s: Sys, d: Dir, s': Sys)
    requires OwnKept(s, d, s')
    ensures |s'.m| == |s.m|
  {
  }

  lemma NoViews(m: Mem)
    ensures forall v :: View(m, map[], v) == None
    ensures forall f :: !Belongs(m, map[], f)
  {
  }

  lemma OthersKeep(w: World, s': Sys, a: nat, d': Dir, b: nat)
    requires WorldOk(w) && a < |w.ds| && b < |w.ds| && b != a && Local(w.s, w.ds[a], s', d')
    ensures OwnKept(w.s, w.ds[b], s')
  {
    forall f: nat | f < |w.s.used| && Belongs(w.s.m, w.ds[b], f)
      ensures FrameKept(w.s, s', f)
    {
      BelongsUsed(w.s, w.ds[b], f);
      assert !Belongs(w.s.m, w.ds[a], f);
    }
  }

  lemma LocalApart(w: World, s': Sys, a: nat, d': Dir, b: nat, f: nat)
    requires WorldOk(w) && a < |w.ds| && b < |w.ds| && b != a && Local(w.s, w.ds[a], s', d') && OwnOk(s', d') &&
             Sane(s')
    ensures !(Belongs(s'.m, d', f) && Belongs(w.s.m, w.ds[b], f))
  {
    if Belongs(s'.m, d', f) { BelongsUsed(s', d', f); }
    if Belongs(w.s.m, w.ds[b], f) { BelongsUsed(w.s, w.ds[b], f); }
  }

  /** A step that keeps to its own keeps the world, and leaves every other task untouched. */
  lemma LocalStep(w: World, s': Sys, a: nat, d': Dir)
    requires WorldOk(w) && a < |w.ds| && Sane(s') && OwnOk(s', d') && Local(w.s, w.ds[a], s', d')
    ensures WorldOk(World(s', w.ds[a := d']))
    ensures forall b :: 0 <= b < |w.ds| && b != a ==> Untouched(w.s, w.ds[b], s', w.ds[b])
  {
    hide OwnOk, Belongs, Sane, Untouched, OwnKept, Local;
    forall b: nat | b < |w.ds| && b != a
      ensures OwnOk(s', w.ds[b]) && Untouched(w.s, w.ds[b], s', w.ds[b])
      ensures forall f :: Belongs(s'.m, w.ds[b], f) <==> Belongs(w.s.m, w.ds[b], f)
    {
      OthersKeep(w, s', a, d', b);
      KeptUntouched(w.s, w.ds[b], s');
    }
    forall b: nat, f: nat | b < |w.ds| && b != a
      ensures !(Belongs(s'.m, d', f) && Belongs(w.s.m, w.ds[b], f))
    {
      LocalApart(w, s', a, d', b, f);
    }
  }

  // ----- mapping a fresh page -----

  /** A round of vmm_alloc_user_pages, or of the program loader, that succeeds: a page that is no user page
      yet gets a fresh frame. */
  ghost predicate MapStep(s: Sys, d: Dir, s': Sys, d': Dir, v: Page, f: nat, e: Pte, s1: Sys)
  {
    && (View(s.m, d, v).Some? ==> !View(s.m, d, v).value.u) && TakenPage(s, f, s1) && e.p && e.u && e.frame == f
    && Mapped(s1, d, s', d', v, e)
  }

  lemma MapUserFrames(s: Sys, d: Dir, s': Sys, d': Dir, v: Page, f: nat, e: Pte, s1: Sys)
    requires MapStep(s, d, s', d', v, f, e, s1)
    ensures forall x, g :: UserFrame(s'.m, d', x, g) <==> (if x == v then g == f else UserFrame(s.m, d, x, g))
  {
    hide View;
  }

  lemma MapPage(s: Sys, d: Dir, s': Sys, d': Dir, v: Page, f: nat, e: Pte, s1: Sys, x: Page, g: nat)
    requires MapStep(s, d, s', d', v, f, e, s1) && Owned(s, d) &&
             (if x == v then g == f else PageOwned(s, d, x, g) && UserFrame(s.m, d, x, g))
    ensures PageOwned(s', d', x, g)
  {
    assert Outside(d, g);
    GrownKeeps(s1, d, s', d', g);
    if x != v { LeafFromView(s.m, d, s'.m, d', x); }
  }

  lemma MapFacts(s: Sys, d: Dir, s': Sys, d': Dir, v: Page, f: nat, e: Pte, s1: Sys)
    requires MapStep(s, d, s', d', v, f, e, s1)
    ensures Space(s'.m, d') && Owned(s', d') && Fresh(s, f)
  {
  }

  lemma MapOwn(s: Sys, d: Dir, s': Sys, d': Dir, v: Page, f: nat, e: Pte, s1: Sys)
    requires MapStep(s, d, s', d', v, f, e, s1) && Owned(s, d) && UserOwned(s, d)
    ensures OwnOk(s', d')
  {
    hide PageOwned, UserFrame, Space, Owned, MapStep;
    MapFacts(s, d, s', d', v, f, e, s1);
    MapUserFrames(s, d, s', d', v, f, e, s1);
    FreshNotOwned(s, d, f);
    forall x, g: nat | UserFrame(s'.m, d', x, g)
      ensures PageOwned(s', d', x, g)
    {
      MapPage(s, d, s', d', v, f, e, s1, x, g);
    }
  }

  lemma FreshNotOwned(s: Sys, d: Dir, f: nat)
    requires Fresh(s, f) && UserOwned(s, d)
    ensures forall x :: !UserFrame(s.m, d, x, f)
  {
    assert forall x :: UserFrame(s.m, d, x, f) ==> PageOwned(s, d, x, f);
  }

  lemma MapLocal(s: Sys, d: Dir, s': Sys, d': Dir, v: Page, f: nat, e: Pte, s1: Sys)
    requires MapStep(s, d, s', d', v, f, e, s1) && Sane(s) && Owned(s, d) && Space(s.m, d)
    ensures Local(s, d, s', d')
  {
    MapUserFrames(s, d, s', d', v, f, e, s1);
    hide View, UserFrame, Space;
    forall g: nat | g < |s.used| && s.used[g] && !Belongs(s.m, d, g)
      ensures FrameKept(s, s', g)
    {
      assert Outside(d, g);
      GrownKeeps(s1, d, s', d', g);
    }
    forall g: nat | g < |s.used| && Belongs(s'.m, d', g)
      ensures Belongs(s.m, d, g) || !s.used[g]
    {
      if IsTable(d', g) {
        var x :| x in d' && d'[x] == g;
        if x in d { assert IsTable(d, g); }
      } else {
        var x :| UserFrame(s'.m, d', x, g);
        if x != v { assert IsPage(s.m, d, g); }
      }
    }
  }

  // ----- unmapping -----

  /** What paging_unmap_4k makes of a user page. */
  ghost predicate UnmapStep(s: Sys, d: Dir, s': Sys, d': Dir, v: Page)
  {
    exists f :: UserFrame(s.m, d, v, f) && UnmapOk(s, d, v) && (s', d') == Unmap(s, d, v)
  }

  /** The leaf of `v` is cleared and its frame `f` free. */
  ghost predicate ClearedTo(s: Sys, d: Dir, v: Page, f: nat, s1: Sys)
  {
    && At(v, 0) in d && d[At(v, 0)] < |s.m| && f < |s.used| && f < |s.refs|
    && s1 == Sys(Poke(s.m, d[At(v, 0)], v.i1, ZERO), s.data, s.used[f := false], s.refs[f := 0])
  }

  ghost predicate ViewsBut(m: Mem, d: Dir, m1: Mem, d1: Dir, v: Page)
  {
    forall x :: View(m1, d1, x) == if x == v then None else View(m, d, x)
  }

  ghost predicate Unmapping(s: Sys, d: Dir, s': Sys, d': Dir, v: Page, f: nat, s1: Sys)
  {
    && ClearedTo(s, d, v, f, s1) && Space(s1.m, d) && ViewsBut(s.m, d, s1.m, d, v)
    && Pruned(s1, d, s', d') && Sane(s')
  }

  lemma UnmapFacts(s: Sys, d: Dir, v: Page, f: nat)
    requires Sane(s) && Space(s.m, d) && Owned(s, d) && UserOwned(s, d) && UserFrame(s.m, d, v, f)
    ensures UnmapOk(s, d, v) && Unmapping(s, d, Unmap(s, d, v).0, Unmap(s, d, v).1, v, f, Cleared(s, d, v))
  {
    hide Space, View, Cascaded, Cleared, UserOwned, UserFrame, Pruned, ClearedTo, Sane, LeafSafe, Entry;
    UserIsOwned(s, d, v, f);
    ClearedIs(s, d, v, f);
    ClearStep(s, d, v);
    CascadePrunes(Cleared(s, d, v), d, v, 0);
  }

  lemma UserIsOwned(s: Sys, d: Dir, v: Page, f: nat)
    requires Sane(s) && Owned(s, d) && UserOwned(s, d) && UserFrame(s.m, d, v, f)
    ensures PageOwned(s, d, v, f) && At(v, 0) in d && d[At(v, 0)] < |s.m|
  {
    assert PageOwned(s, d, v, f);
  }

  lemma ClearedIs(s: Sys, d: Dir, v: Page, f: nat)
    requires Sane(s) && PageOwned(s, d, v, f) && UserFrame(s.m, d, v, f) && At(v, 0) in d && d[At(v, 0)] < |s.m|
    ensures UnmapOk(s, d, v) && LeafSafe(s, d, v) && ClearedTo(s, d, v, f, Cleared(s, d, v))
  {
  }

  lemma UnmapUserFrames(m: Mem, d: Dir, m1: Mem, d1: Dir, v: Page)
    requires ViewsBut(m, d, m1, d1, v) && |m1| == |m|
    ensures forall x, g :: UserFrame(m1, d1, x, g) <==> x != v && UserFrame(m, d, x, g)
  {
    hide View;
  }

  lemma UnmapPage(s: Sys, d: Dir, s': Sys, d': Dir, v: Page, f: nat, s1: Sys, x: Page, g: nat)
    requires Unmapping(s, d, s', d', v, f, s1) && x != v && g != f && PageOwned(s, d, x, g) && UserFrame(s.m, d, x, g)
    ensures PageOwned(s', d', x, g)
  {
    LeafFromView(s.m, d, s1.m, d, x);
    LeafStays(s1.m, d, s'.m, d', x);
    assert !New(d', d, g);
  }

  lemma UnmapOwn(s: Sys, d: Dir, s': Sys, d': Dir, v: Page, f: nat, s1: Sys)
    requires Unmapping(s, d, s', d', v, f, s1) && UserOwned(s, d) && UserFrame(s.m, d, v, f)
    ensures OwnOk(s', d')
  {
    hide View, UserFrame, PageOwned, Space, Owned, ClearedTo, Shrunk, Sane;
    UnmapSizes(s, d, s', d', v, f, s1);
    UnmapUserFrames(s.m, d, s'.m, d', v);
    forall x, g: nat | UserFrame(s'.m, d', x, g)
      ensures PageOwned(s', d', x, g)
    {
      UnmapPage(s, d, s', d', v, f, s1, x, g);
    }
  }

  lemma UnmapSizes(s: Sys, d: Dir, s': Sys, d': Dir, v: Page, f: nat, s1: Sys)
    requires Unmapping(s, d, s', d', v, f, s1)
    ensures |s'.m| == |s.m| && |s'.used| == |s.used| && |s'.refs| == |s.refs| && s'.data == s.data
    ensures ViewsBut(s.m, d, s'.m, d', v)
  {
  }

  lemma UnmapLocal(s: Sys, d: Dir, s': Sys, d': Dir, v: Page, f: nat, s1: Sys)
    requires Unmapping(s, d, s', d', v, f, s1) && Sane(s) && UserFrame(s.m, d, v, f)
    ensures Local(s, d, s', d')
  {
    UnmapSizes(s, d, s', d', v, f, s1);
    UnmapUserFrames(s.m, d, s'.m, d', v);
    hide View, UserFrame, Space, ViewsBut;
    assert IsPage(s.m, d, f);
    forall g: nat | g < |s.used| && s.used[g] && !Belongs(s.m, d, g)
      ensures FrameKept(s, s', g)
    {
      assert Outside(d, g);
      assert !New(d', d, g);
    }
    forall g: nat | g < |s.used| && Belongs(s'.m, d', g)
      ensures Belongs(s.m, d, g)
    {
      if IsTable(d', g) {
        var x :| x in d' && d'[x] == g;
        assert IsTable(d, g);
      } else {
        var x :| UserFrame(s'.m, d', x, g);
        assert IsPage(s.m, d, g);
      }
    }
  }

  // ----- a mapping that fails for want of a table -----

  /** A round of vmm_alloc_user_pages that cannot map its page gives the page back; tables made on
      the way stay. */
  ghost predicate FailStep(s: Sys, d: Dir, s': Sys, d': Dir, f: nat, s1: Sys, s2: Sys)
  {
    TakenPage(s, f, s1) && Stepped(s1, d, s2, d') && s' == s2.Free(f)
  }

  lemma FailUserFrames(s: Sys, d: Dir, s': Sys, d': Dir, f: nat, s1: Sys, s2: Sys)
    requires FailStep(s, d, s', d', f, s1, s2)
    ensures s'.m == s2.m && |s'.m| == |s.m| && forall x, g :: UserFrame(s'.m, d', x, g) <==> UserFrame(s.m, d, x, g)
  {
    hide View;
  }

  lemma FailPage(s: Sys, d: Dir, s': Sys, d': Dir, f: nat, s1: Sys, s2: Sys, x: Page, g: nat)
    requires FailStep(s, d, s', d', f, s1, s2) && PageOwned(s, d, x, g) && UserFrame(s.m, d, x, g)
    ensures PageOwned(s', d', x, g)
  {
    GrownKeeps(s1, d, s2, d', g);
    LeafFromView(s.m, d, s2.m, d', x);
  }

  lemma FailOwned(s: Sys, d: Dir, s': Sys, d': Dir, f: nat, s1: Sys, s2: Sys)
    requires FailStep(s, d, s', d', f, s1, s2) && Owned(s, d)
    ensures Space(s'.m, d') && Owned(s', d')
  {
    hide Space, SameViews;
  }

  lemma FailOwn(s: Sys, d: Dir, s': Sys, d': Dir, f: nat, s1: Sys, s2: Sys)
    requires FailStep(s, d, s', d', f, s1, s2) && Owned(s, d) && UserOwned(s, d)
    ensures OwnOk(s', d')
  {
    hide PageOwned, UserFrame, Space, FailStep, Owned;
    FailOwned(s, d, s', d', f, s1, s2);
    FailUserFrames(s, d, s', d', f, s1, s2);
    forall x, g: nat | UserFrame(s'.m, d', x, g)
      ensures PageOwned(s', d', x, g)
    {
      FailPage(s, d, s', d', f, s1, s2, x, g);
    }
  }

  lemma FailLocal(s: Sys, d: Dir, s': Sys, d': Dir, f: nat, s1: Sys, s2: Sys)
    requires FailStep(s, d, s', d', f, s1, s2) && Sane(s) && Owned(s, d)
    ensures Local(s, d, s', d')
  {
    FailUserFrames(s, d, s', d', f, s1, s2);
    hide View, UserFrame, Space;
    forall g: nat | g < |s.used| && s.used[g] && !Belongs(s.m, d, g)
      ensures FrameKept(s, s', g)
    {
      assert Outside(d, g);
      GrownKeeps(s1, d, s2, d', g);
    }
    forall g: nat | g < |s.used| && Belongs(s'.m, d', g)
      ensures Belongs(s.m, d, g) || !s.used[g]
    {
      if IsTable(d', g) {
        var x :| x in d' && d'[x] == g;
        if x in d { assert IsTable(d, g); }
      } else {
        var x :| UserFrame(s'.m, d', x, g);
        assert IsPage(s.m, d, g);
      }
    }
  }

  // ----- a change of access -----

  /** What paging_set_prot_range makes of one page. */
  ghost predicate ProtStep(s: Sys, d: Dir, s': Sys, v: Page, w: bool)
  {
    IsUser4k(s.m, d, v) && d[At(v, 0)] < |s.m| && s' == Reset(s, d, v, w)
  }

  lemma ProtUserFrames(s: Sys, d: Dir, s': Sys, v: Page, w: bool)
    requires ProtStep(s, d, s', v, w) && Sane(s) && Space(s.m, d) && Owned(s, d)
    ensures Space(s'.m, d) && Owned(s', d) && s'.used == s.used && s'.refs == s.refs && s'.data == s.data &&
            |s'.m| == |s.m|
    ensures forall x, g :: UserFrame(s'.m, d, x, g) <==> UserFrame(s.m, d, x, g)
    ensures forall x :: IsUser4k(s'.m, d, x) <==> IsUser4k(s.m, d, x)
  {
    ResetViews(s, d, v, w);
    hide View, Space;
    forall x: Page
      ensures IsUser4k(s'.m, d, x) <==> IsUser4k(s.m, d, x)
    {
      ResetKinds(s, d, v, w, x);
    }
  }

  lemma ProtKeeps(s: Sys, d: Dir, s': Sys, v: Page, w: bool)
    requires ProtStep(s, d, s', v, w) && Sane(s) && Space(s.m, d) && Owned(s, d) && UserOwned(s, d)
    ensures OwnOk(s', d) && Local(s, d, s', d)
  {
    ProtUserFrames(s, d, s', v, w);
    hide UserFrame, View, Space, IsUser4k;
    assert IsTable(d, d[At(v, 0)]);
    forall x, g: nat | UserFrame(s'.m, d, x, g)
      ensures PageOwned(s', d, x, g)
    {
      assert PageOwned(s, d, x, g);
    }
    forall g: nat | Belongs(s'.m, d, g)
      ensures Belongs(s.m, d, g)
    {
      if !IsTable(d, g) {
        var x :| UserFrame(s'.m, d, x, g);
        assert UserFrame(s.m, d, x, g);
      }
    }
  }

  // ----- a store by the program -----

  /** The program, or the loader for it, writes byte `i` of its page `v`. */
  ghost predicate StoreStep(s: Sys, d: Dir, s': Sys, v: Page, f: nat, i: nat, b: byte)
  {
    UserFrame(s.m, d, v, f) && f < |s.data| && i < 4096 &&
      s' == Sys(s.m, s.data[f := s.data[f][i := b]], s.used, s.refs)
  }

  lemma StoreKeeps(s: Sys, d: Dir, s': Sys, v: Page, f: nat, i: nat, b: byte)
    requires StoreStep(s, d, s', v, f, i, b) && Sane(s) && OwnOk(s, d)
    ensures OwnOk(s', d) && Local(s, d, s', d)
  {
    hide UserFrame, View, Space;
    assert IsPage(s.m, d, f);
    forall x, g: nat | PageOwned(s, d, x, g)
      ensures PageOwned(s', d, x, g)
    {
    }
  }

  // ----- a copied space -----

  lemma CopyPage(s0: Sys, dp: Dir, s: Sys, cp: Copy, v: Page, f: nat)
    requires Separate(s0, dp, s, cp) && UserFrame(s.m, cp.dc, v, f)
    ensures (At(v, 0), v.i1) in cp.pg && cp.pg[(At(v, 0), v.i1)] == f && NewFrame(s0, s, f) && PageOwned(s, cp.dc, v, f)
  {
    SeparateView(s0, dp, s, cp, v);
    var k := (At(v, 0), v.i1);
    assert k in cp.pg && cp.pg[k] == f;
    PageHasLeaf(s0, dp, s, cp, k);
    CopyApart(s0, dp, s, cp);
    assert NewFrame(s0, s, f) by { assert Building(s0, s, cp); }
  }

  lemma CopyOwn(s0: Sys, dp: Dir, s: Sys, cp: Copy)
    requires Separate(s0, dp, s, cp)
    ensures OwnOk(s, cp.dc)
  {
    hide Separate, UserFrame, PageOwned, Space, Owned, NewFrame;
    SeparateSpace(s0, dp, s, cp);
    forall v, f: nat | UserFrame(s.m, cp.dc, v, f)
      ensures PageOwned(s, cp.dc, v, f)
      ensures (At(v, 0), v.i1) in cp.pg && cp.pg[(At(v, 0), v.i1)] == f
    {
      CopyPage(s0, dp, s, cp, v, f);
    }
    CopyApart(s0, dp, s, cp);
    hide At;
    forall v, x, f: nat | UserFrame(s.m, cp.dc, v, f) && UserFrame(s.m, cp.dc, x, f)
      ensures v == x
    {
      assert (At(v, 0), v.i1) == (At(x, 0), x.i1);
      SamePlace(v, x);
    }
  }

  lemma SamePlace(v: Page, x: Page)
    requires At(v, 0) == At(x, 0) && v.i1 == x.i1
    ensures v == x
  {
  }

  lemma CopyLocal(s0: Sys, dp: Dir, s: Sys, cp: Copy)
    requires Separate(s0, dp, s, cp)
    ensures Local(s0, map[], s, cp.dc)
  {
    TakenOnce(s0, dp, s, cp, 0);
    forall f: nat | f < |s0.used| && s0.used[f]
      ensures FrameKept(s0, s, f)
    {
      assert AllKept(s0, s);
    }
    forall f: nat | f < |s0.used| && Belongs(s.m, cp.dc, f)
      ensures !s0.used[f]
    {
      if IsTable(cp.dc, f) {
        var x :| x in cp.dc && cp.dc[x] == f;
        assert NewFrame(s0, s, cp.dc[x]);
      } else {
        var v :| UserFrame(s.m, cp.dc, v, f);
        CopyPage(s0, dp, s, cp, v, f);
      }
    }
  }

  // ----- a space taken down -----

  lemma LeafIsPage(s: Sys, d: Dir, y: Pos, j: nat) returns (v: Page)
    requires Space(s.m, d) && UserLeaf(s.m, d, y, j)
    ensures UserFrame(s.m, d, v, Entry(s.m, d, y, j).frame) && At(v, 0) == y && v.i1 == j
  {
    v := PageThrough(s.m, d, y, j);
  }

  lemma GoneLocal(s: Sys, d: Dir, s': Sys)
    requires Sane(s) && Space(s.m, d) && Owned(s, d) && Gone(s, d, s, s', Top)
    ensures Local(s, d, s', map[])
  {
    NoViews(s'.m);
    forall f: nat | f < |s.used| && s.used[f] && !Belongs(s.m, d, f)
      ensures FrameKept(s, s', f)
    {
      assert f !in TablesUnder(d, Top) by {
        if f in TablesUnder(d, Top) { assert IsTable(d, f); }
      }
      assert f !in LeavesUnder(s.m, d, Top) by {
        if f in LeavesUnder(s.m, d, Top) {
          var y, j :| y in d && Under(y, Top) && 0 <= j < 512 && UserLeaf(s.m, d, y, j) &&
            Entry(s.m, d, y, j).frame == f;
          var v := LeafIsPage(s, d, y, j);
          assert IsPage(s.m, d, f);
        }
      }
      assert FrameAfter(s, s', TablesUnder(d, Top), LeavesUnder(s.m, d, Top), f);
    }
  }

  // ----- the whole system -----

  /** One step of task `a`: it gets a user page, fails to, gives one back, stores a byte, has the access of a
      page changed, or is taken down;
        or there is no such task, and it is created as a copy of another one or of the kernel
      template. */
  ghost predicate Acts(w: World, s': Sys, a: nat, d': Dir)
    requires a < |w.ds|
  {
    var s, d := w.s, w.ds[a];
    if d == map[] then exists p, cp :: 0 <= p < |w.ds| && Separate(s, w.ds[p], s', cp) && d' == cp.dc
    else
      || (exists v, f, e, s1 :: MapStep(s, d, s', d', v, f, e, s1))
      || (exists f, s1, s2 :: FailStep(s, d, s', d', f, s1, s2))
      || (exists v :: UnmapStep(s, d, s', d', v))
      || (d' == d && exists v, f, i, b :: StoreStep(s, d, s', v, f, i, b))
      || (d' == d && exists v, p :: ProtStep(s, d, s', v, p))
      || (d' == map[] && Gone(s, d, s, s', Top))
  }

  ghost predicate Next(w: World, w': World, a: nat)
  {
    a < |w.ds| == |w'.ds| && w'.ds == w.ds[a := w'.ds[a]] && Sane(w'.s) && Acts(w, w'.s, a, w'.ds[a])
  }

  lemma ActsLocal(w: World, s': Sys, a: nat, d': Dir)
    requires WorldOk(w) && a < |w.ds| && Sane(s') && Acts(w, s', a, d')
    ensures OwnOk(s', d') && Local(w.s, w.ds[a], s', d')
  {
    hide Local, MapStep, FailStep, UnmapStep, StoreStep, ProtStep, Separate, Gone, Space, Owned, UserOwned, Apart;
    var s, d := w.s, w.ds[a];
    assert OwnOk(s, d);
    if d == map[] {
      var p, cp :| 0 <= p < |w.ds| && Separate(s, w.ds[p], s', cp) && d' == cp.dc;
      CopyOwn(s, w.ds[p], s', cp);
      CopyLocal(s, w.ds[p], s', cp);
    } else if exists v, f, e, s1 :: MapStep(s, d, s', d', v, f, e, s1) {
      var v, f, e, s1 :| MapStep(s, d, s', d', v, f, e, s1);
      MapOwn(s, d, s', d', v, f, e, s1);
      MapLocal(s, d, s', d', v, f, e, s1);
    } else if exists f, s1, s2 :: FailStep(s, d, s', d', f, s1, s2) {
      var f, s1, s2 :| FailStep(s, d, s', d', f, s1, s2);
      FailOwn(s, d, s', d', f, s1, s2);
      FailLocal(s, d, s', d', f, s1, s2);
    } else if exists v :: UnmapStep(s, d, s', d', v) {
      var v :| UnmapStep(s, d, s', d', v);
      UnmapBoth(s, d, s', d', v);
    } else if d' == d && exists v, f, i, b :: StoreStep(s, d, s', v, f, i, b) {
      var v, f, i, b :| StoreStep(s, d, s', v, f, i, b);
      StoreKeeps(s, d, s', v, f, i, b);
    } else if d' == d && exists v, p :: ProtStep(s, d, s', v, p) {
      var v, p :| ProtStep(s, d, s', v, p);
      ProtKeeps(s, d, s', v, p);
    } else {
      GoneLocal(s, d, s');
    }
  }

  lemma UnmapBoth(s: Sys, d: Dir, s': Sys, d': Dir, v: Page)
    requires Sane(s) && Space(s.m, d) && Owned(s, d) && UserOwned(s, d) && UnmapStep(s, d, s', d', v)
    ensures OwnOk(s', d') && Local(s, d, s', d')
  {
    hide Local, Space, Owned, UserOwned, UserFrame, OwnOk, Unmapping;
    var f :| UserFrame(s.m, d, v, f) && UnmapOk(s, d, v) && (s', d') == Unmap(s, d, v);
    UnmapFacts(s, d, v, f);
    UnmapOwn(s, d, s', d', v, f, Cleared(s, d, v));
    UnmapLocal(s, d, s', d', v, f, Cleared(s, d, v));
  }

  /** Each step keeps the world, and is not seen by any other task. */
  lemma NextKeeps(w: World, w': World, a: nat)
    requires WorldOk(w) && Next(w, w', a)
    ensures WorldOk(w')
    ensures forall b :: 0 <= b < |w.ds| && b != a ==> Untouched(w.s, w.ds[b], w'.s, w'.ds[b])
  {
    hide WorldOk, Untouched, OwnOk, Local, Acts;
    ActsLocal(w, w'.s, a, w'.ds[a]);
    LocalStep(w, w'.s, a, w'.ds[a]);
  }

  /** A run: `acts[i]` makes the step from `ws[i]` to `ws[i + 1]`. */
  ghost predicate IsRun(ws: seq<World>, acts: seq<nat>)
  {
    |ws| == |acts| + 1 && forall i :: 0 <= i < |acts| ==> Next(ws[i], ws[i + 1], acts[i])
  }

  lemma UntouchedTrans(s: Sys, d: Dir, s1: Sys, d1: Dir, s2: Sys, d2: Dir)
    requires Untouched(s, d, s1, d1) && Untouched(s1, d1, s2, d2)
    ensures Untouched(s, d, s2, d2)
  {
    hide View, Contents;
  }

  /** Whatever the other tasks do, however often, a task that makes no step itself finds its
      translations and its memory as they were. */
  lemma {:induction false} RunIsolated(ws: seq<World>, acts: seq<nat>, b: nat)
    requires IsRun(ws, acts) && WorldOk(ws[0]) && b < |ws[0].ds| && b !in acts
    ensures var w := ws[|acts|]; WorldOk(w) && b < |w.ds| && Untouched(ws[0].s, ws[0].ds[b], w.s, w.ds[b])
    decreases |acts|
  {
    hide WorldOk, Untouched, Next;
    if |acts| == 0 {
      UntouchedRefl(ws[0].s, ws[0].ds[b]);
    } else {
      var n := |acts| - 1;
      assert Next(ws[n], ws[n + 1], acts[n]);
      RunIsolated(ws[..n + 1], acts[..n], b);
      NextKeeps(ws[n], ws[n + 1], acts[n]);
      NextSize(ws[n], ws[n + 1], acts[n]);
      UntouchedTrans(ws[0].s, ws[0].ds[b], ws[n].s, ws[n].ds[b], ws[n + 1].s, ws[n + 1].ds[b]);
    }
  }

  lemma UntouchedRefl(s: Sys, d: Dir)
    ensures Untouched(s, d, s, d)
  {
  }

  lemma NextSize(w: World, w': World, a: nat)
    requires Next(w, w', a)
    ensures |w'.ds| == |w.ds|
  {
  }
}
