/** Accounting over every run: the frames in use are the reserved ones and those of the live address
    spaces, each in one of them (kernel/mm/vmm.c, kernel/mm/pmm.c). */
module VmCount {
  import opened Tiny
  import opened PageTables
  import opened VmSpec
  import opened VmFork
  import opened VmChild
  import opened VmDestroy
  import opened VmLife
  import opened VmWorld

  /** A frame in use after a step was in use before and not the space's own, or belongs to it now. */
  ghost predicate Accounted(s: Sys, d: Dir, s': Sys, d': Dir, f: nat)
  {
    f < |s'.used| && s'.used[f] ==> (f < |s.used| && s.used[f] && !Belongs(s.m, d, f)) || Belongs(s'.m, d', f)
  }

  lemma MapAccounted(s: Sys, d: Dir, s': Sys, d': Dir, v: Page, f: nat, e: Pte, s1: Sys, g: nat)
    requires MapStep(s, d, s', d', v, f, e, s1)
    ensures Accounted(s, d, s', d', g)
  {
    MapUserFrames(s, d, s', d', v, f, e, s1);
    hide View, UserFrame, Space, Owned;
    if g < |s'.used| && s'.used[g] {
      if New(d, d', g) {
        assert IsTable(d', g);
      } else if g == f {
        assert UserFrame(s'.m, d', v, f);
      } else if IsTable(d, g) {
        var x :| x in d && d[x] == g;
        assert x in d' && d'[x] == g;
      } else if IsPage(s.m, d, g) {
        var x :| UserFrame(s.m, d, x, g);
        if x != v { assert UserFrame(s'.m, d', x, g); } else { NoUserAt(s, d, v, g); }
      }
    }
  }

  lemma NoUserAt(s: Sys, d: Dir, v: Page, g: nat)
    requires View(s.m, d, v).Some? ==> !View(s.m, d, v).value.u
    ensures !UserFrame(s.m, d, v, g)
  {
  }

  lemma FailAccounted(s: Sys, d: Dir, s': Sys, d': Dir, f: nat, s1: Sys, s2: Sys, g: nat)
    requires FailStep(s, d, s', d', f, s1, s2)
    ensures Accounted(s, d, s', d', g)
  {
    FailUserFrames(s, d, s', d', f, s1, s2);
    hide View, UserFrame, Space, Owned;
    if g < |s'.used| && s'.used[g] {
      if New(d, d', g) {
        assert IsTable(d', g);
      } else if IsTable(d, g) {
        var x :| x in d && d[x] == g;
        assert x in d' && d'[x] == g;
      } else if IsPage(s.m, d, g) {
        var x :| UserFrame(s.m, d, x, g);
        assert UserFrame(s'.m, d', x, g);
      }
    }
  }

  lemma UnmapAccounted(s: Sys, d: Dir, s': Sys, d': Dir, v: Page, g: nat)
    requires Sane(s) && Space(s.m, d) && Owned(s, d) && UserOwned(s, d) && UnmapStep(s, d, s', d', v)
    ensures Accounted(s, d, s', d', g)
  {
    hide Space, Owned, UserOwned, UserFrame, Unmapping;
    var f :| UserFrame(s.m, d, v, f) && UnmapOk(s, d, v) && (s', d') == Unmap(s, d, v);
    UnmapFacts(s, d, v, f);
    PrunedAccounted(s, d, s', d', v, f, Cleared(s, d, v), g);
  }

  lemma PrunedAccounted(s: Sys, d: Dir, s': Sys, d': Dir, v: Page, f: nat, s1: Sys, g: nat)
    requires Unmapping(s, d, s', d', v, f, s1) && UserFrame(s.m, d, v, f)
    ensures Accounted(s, d, s', d', g)
  {
    UnmapSizes(s, d, s', d', v, f, s1);
    UnmapUserFrames(s.m, d, s'.m, d', v);
    OneFrame(s, d, v, f, g);
    hide View, UserFrame, Space, ViewsBut, Owned;
    if g < |s'.used| && s'.used[g] {
      assert !New(d', d, g);
      if IsTable(d, g) {
        var x :| x in d && d[x] == g;
        assert x in d' && d'[x] == g;
      } else if IsPage(s.m, d, g) {
        var x :| UserFrame(s.m, d, x, g);
        assert UserFrame(s'.m, d', x, g);
      }
    }
  }

  lemma OneFrame(s: Sys, d: Dir, v: Page, f: nat, g: nat)
    requires UserFrame(s.m, d, v, f)
    ensures UserFrame(s.m, d, v, g) ==> g == f
  {
  }

  lemma SameAccounted(s: Sys, d: Dir, s': Sys, g: nat)
    requires s'.used == s.used && forall x, h :: UserFrame(s.m, d, x, h) ==> UserFrame(s'.m, d, x, h)
    ensures Accounted(s, d, s', d, g)
  {
    hide UserFrame;
    if IsPage(s.m, d, g) {
      var x :| UserFrame(s.m, d, x, g);
      assert UserFrame(s'.m, d, x, g);
    }
  }

  /** Nothing of a space that was taken down stays in use. */
  lemma GoneAccounted(s: Sys, d: Dir, s': Sys, g: nat)
    requires Sane(s) && Space(s.m, d) && Owned(s, d) && UserOwned(s, d) && Gone(s, d, s, s', Top)
    ensures Accounted(s, d, s', map[], g)
  {
    if g < |s.used| && Belongs(s.m, d, g) {
      assert FrameAfter(s, s', TablesUnder(d, Top), LeavesUnder(s.m, d, Top), g);
      if IsTable(d, g) {
        var x :| x in d && d[x] == g;
        UnderTop(x);
        assert g in TablesUnder(d, Top);
      } else {
        var v :| UserFrame(s.m, d, v, g);
        PageIsLeaf(s, d, v, g);
        assert PageOwned(s, d, v, g);
      }
    }
    if g < |s.used| && !Belongs(s.m, d, g) {
      assert FrameAfter(s, s', TablesUnder(d, Top), LeavesUnder(s.m, d, Top), g);
      NotBelow(s, d, g);
    }
  }

  lemma NotBelow(s: Sys, d: Dir, g: nat)
    requires Space(s.m, d) && !Belongs(s.m, d, g)
    ensures g !in TablesUnder(d, Top) && g !in LeavesUnder(s.m, d, Top)
  {
    if g in TablesUnder(d, Top) { assert IsTable(d, g); }
    if g in LeavesUnder(s.m, d, Top) {
      var y, j :| y in d && Under(y, Top) && 0 <= j < 512 && UserLeaf(s.m, d, y, j) && Entry(s.m, d, y, j).frame == g;
      var v := LeafIsPage(s, d, y, j);
      assert IsPage(s.m, d, g);
    }
  }

  lemma PageIsLeaf(s: Sys, d: Dir, v: Page, g: nat)
    requires Space(s.m, d) && UserOwned(s, d) && UserFrame(s.m, d, v, g)
    ensures g in LeavesUnder(s.m, d, Top)
  {
    assert PageOwned(s, d, v, g);
    UnderTop(At(v, 0));
    assert UserLeaf(s.m, d, At(v, 0), v.i1);
  }

  lemma CopyAccounted(s0: Sys, dp: Dir, s: Sys, cp: Copy, g: nat)
    requires Separate(s0, dp, s, cp)
    ensures Accounted(s0, map[], s, cp.dc, g)
  {
    NoViews(s0.m);
    SeparateSpace(s0, dp, s, cp);
    hide View, Space, Owned;
    if g < |s.used| && s.used[g] {
      TakenSize(s0, dp, s, cp);
      TakenOnce(s0, dp, s, cp, g);
      if !s0.used[g] {
        if exists k :: k in cp.pg && cp.pg[k] == g {
          var k :| k in cp.pg && cp.pg[k] == g;
          PageHasLeaf(s0, dp, s, cp, k);
          var v := LeafIsPage(s, cp.dc, k.0, k.1);
          assert IsPage(s.m, cp.dc, g);
        } else {
          assert IsTable(cp.dc, g);
        }
      } else {
        assert !Belongs(s0.m, map[], g);
      }
    }
  }

  lemma TakenSize(s0: Sys, dp: Dir, s: Sys, cp: Copy)
    requires Separate(s0, dp, s, cp)
    ensures |s.used| == |s0.used|
  {
    TakenOnce(s0, dp, s, cp, 0);
  }

  lemma ActsAccounted(w: World, s': Sys, a: nat, d': Dir, g: nat)
    requires WorldOk(w) && a < |w.ds| && Sane(s') && Acts(w, s', a, d')
    ensures Accounted(w.s, w.ds[a], s', d', g)
  {
    hide Accounted, MapStep, FailStep, UnmapStep, StoreStep, ProtStep, Separate, Gone, Space, Owned, UserOwned,
         VmWorld.Apart;
    var s, d := w.s, w.ds[a];
    assert OwnOk(s, d);
    if d == map[] {
      var p, cp :| 0 <= p < |w.ds| && Separate(s, w.ds[p], s', cp) && d' == cp.dc;
      CopyAccounted(s, w.ds[p], s', cp, g);
    } else if exists v, f, e, s1 :: MapStep(s, d, s', d', v, f, e, s1) {
      var v, f, e, s1 :| MapStep(s, d, s', d', v, f, e, s1);
      MapAccounted(s, d, s', d', v, f, e, s1, g);
    } else if exists f, s1, s2 :: FailStep(s, d, s', d', f, s1, s2) {
      var f, s1, s2 :| FailStep(s, d, s', d', f, s1, s2);
      FailAccounted(s, d, s', d', f, s1, s2, g);
    } else if exists v :: UnmapStep(s, d, s', d', v) {
      var v :| UnmapStep(s, d, s', d', v);
      UnmapAccounted(s, d, s', d', v, g);
    } else if d' == d && exists v, f, i, b :: StoreStep(s, d, s', v, f, i, b) {
      var v, f, i, b :| StoreStep(s, d, s', v, f, i, b);
      StoreSame(s, d, s', v, f, i, b);
      SameAccounted(s, d, s', g);
    } else if d' == d && exists v, p :: ProtStep(s, d, s', v, p) {
      var v, p :| ProtStep(s, d, s', v, p);
      ProtUserFrames(s, d, s', v, p);
      SameAccounted(s, d, s', g);
    } else {
      GoneAccounted(s, d, s', g);
    }
  }

  lemma StoreSame(s: Sys, d: Dir, s': Sys, v: Page, f: nat, i: nat, b: byte)
    requires StoreStep(s, d, s', v, f, i, b)
    ensures s'.used == s.used && s'.m == s.m
  {
  }

  // ----- every run -----

  ghost predicate OfSpace(w: World, a: nat, f: nat)
  {
    a < |w.ds| && Belongs(w.s.m, w.ds[a], f)
  }

  /** Frame `f` is in use exactly if it is reserved or belongs to a space, and is not both. */
  ghost predicate TightAt(w: World, r: set<nat>, f: nat)
  {
    f < |w.s.used| ==>
      && (w.s.used[f] <==> f in r || exists a: nat :: OfSpace(w, a, f))
      && (f in r ==> forall a: nat :: !OfSpace(w, a, f))
  }

  ghost predicate Tight(w: World, r: set<nat>)
  {
    forall f: nat {:trigger TightAt(w, r, f)} :: TightAt(w, r, f)
  }

  lemma OtherSame(w: World, w': World, a: nat, b: nat, f: nat)
    requires b < |w.ds| == |w'.ds| && b != a && Untouched(w.s, w.ds[b], w'.s, w'.ds[b]) && |w'.s.m| == |w.s.m|
    ensures OfSpace(w', b, f) <==> OfSpace(w, b, f)
  {
    hide View;
    if IsPage(w.s.m, w.ds[b], f) {
      var v :| UserFrame(w.s.m, w.ds[b], v, f);
      assert UserFrame(w'.s.m, w'.ds[b], v, f);
    }
    if IsPage(w'.s.m, w'.ds[b], f) {
      var v :| UserFrame(w'.s.m, w'.ds[b], v, f);
      assert UserFrame(w.s.m, w.ds[b], v, f);
    }
  }

  lemma NextAt(w: World, w': World, a: nat, r: set<nat>, f: nat)
    requires WorldOk(w) && Next(w, w', a) && Tight(w, r)
    ensures TightAt(w', r, f)
  {
    hide WorldOk, Untouched, OwnOk, Acts, Belongs, Accounted;
    NextKeeps(w, w', a);
    ActsLocal(w, w'.s, a, w'.ds[a]);
    ActsAccounted(w, w'.s, a, w'.ds[a], f);
    LocalFacts(w.s, w.ds[a], w'.s, w'.ds[a], f);
    AccountedIs(w.s, w.ds[a], w'.s, w'.ds[a], f);
    hide Local;
    assert TightAt(w, r, f);
    forall b: nat | b < |w.ds| && b != a
      ensures OfSpace(w', b, f) <==> OfSpace(w, b, f)
    {
      OtherSame(w, w', a, b, f);
    }
    assert OfSpace(w, a, f) <==> Belongs(w.s.m, w.ds[a], f);
    assert OfSpace(w', a, f) <==> Belongs(w'.s.m, w'.ds[a], f);
    forall b: nat | OfSpace(w', b, f)
      ensures f < |w'.s.used| && w'.s.used[f]
    {
      OwnAt(w', b);
      BelongsUsed(w'.s, w'.ds[b], f);
    }
  }

  lemma OwnAt(w: World, b: nat)
    requires WorldOk(w) && b < |w.ds|
    ensures Sane(w.s) && OwnOk(w.s, w.ds[b])
  {
  }

  lemma LocalFacts(s: Sys, d: Dir, s': Sys, d': Dir, f: nat)
    requires Local(s, d, s', d')
    ensures |s'.used| == |s.used| && |s'.m| == |s.m|
    ensures f < |s.used| && s.used[f] && !Belongs(s.m, d, f) ==> s'.used[f]
    ensures f < |s.used| && Belongs(s'.m, d', f) ==> Belongs(s.m, d, f) || !s.used[f]
  {
    hide Belongs;
    if f < |s.used| && s.used[f] && !Belongs(s.m, d, f) { assert FrameKept(s, s', f); }
  }

  lemma AccountedIs(s: Sys, d: Dir, s': Sys, d': Dir, f: nat)
    requires Accounted(s, d, s', d', f)
    ensures f < |s'.used| && s'.used[f] ==> (f < |s.used| && s.used[f] && !Belongs(s.m, d, f)) || Belongs(s'.m, d', f)
  {
  }

  /** Over every run of maps, unmaps, stores, forks, clones and destructions, by any tasks in any order, no
      frame is lost and none is in two places: what is in use is what is reserved and what live spaces have. */
  lemma {:induction false} RunTight(ws: seq<World>, acts: seq<nat>, r: set<nat>)
    requires IsRun(ws, acts) && WorldOk(ws[0]) && Tight(ws[0], r)
    ensures WorldOk(ws[|acts|]) && Tight(ws[|acts|], r)
    decreases |acts|
  {
    hide WorldOk, Tight, Next;
    if |acts| > 0 {
      var n := |acts| - 1;
      assert Next(ws[n], ws[n + 1], acts[n]);
      RunTight(ws[..n + 1], acts[..n], r);
      NextKeeps(ws[n], ws[n + 1], acts[n]);
      NextTight(ws[n], ws[n + 1], acts[n], r);
    }
  }

  lemma NextTight(w: World, w': World, a: nat, r: set<nat>)
    requires WorldOk(w) && Next(w, w', a) && Tight(w, r)
    ensures Tight(w', r)
  {
    hide WorldOk, Next;
    forall f: nat
      ensures TightAt(w', r, f)
    {
      NextAt(w, w', a, r, f);
    }
  }

  /** With every space gone, exactly the reserved frames are in use. */
  lemma AllGone(w: World, r: set<nat>, f: nat)
    requires Tight(w, r) && f < |w.s.used| && forall a :: 0 <= a < |w.ds| ==> w.ds[a] == map[]
    ensures w.s.used[f] <==> f in r
  {
    NoViews(w.s.m);
    assert TightAt(w, r, f);
    forall a: nat
      ensures !OfSpace(w, a, f)
    {
    }
  }
}
