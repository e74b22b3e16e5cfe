/** What a copy of an address space leaves, complete or not: the child is an address space, and each of its
    pages is the parent's, a copy of it, or absent (kernel/mm/vmm.c). */
module VmChild {
  import opened Tiny
  import opened PageTables
  import opened VmSpec
  import opened VmFork

  /** Every entry of the child follows from the parent's; some may be left out. */
  ghost predicate Partial(s0: Sys, dp: Dir, s: Sys, cp: Copy)
  {
    Copying(s0, dp, s, cp) && LevelDone(s0, dp, s, cp, Top, false)
  }

  /** The place below the PML4 that leads to `y`. */
  function SlotOf(y: Pos): Pos
    requires y.Below?
  {
    if y.up.Top? then y else SlotOf(y.up)
  }

  /** The parent's table at `y` is in a PML4 slot for which the child got no table, and is shared. */
  predicate Shared(dp: Dir, cp: Copy, y: Pos)
  {
    y in dp && y.Below? && SlotOf(y) !in cp.dc
  }

  /** The tables the child reaches. */
  function ChildDir(dp: Dir, cp: Copy): Dir
  {
    map y | y in cp.dc.Keys + dp.Keys && (y in cp.dc || Shared(dp, cp, y)) :: if y in cp.dc then cp.dc[y] else dp[y]
  }

  lemma {:induction false} OwnSlot(s0: Sys, dp: Dir, cp: Copy, y: Pos)
    requires Planned(s0, dp, cp) && y in cp.dc && y.Below?
    ensures SlotOf(y) in cp.dc
    decreases y
  {
    if y.up.Below? { OwnSlot(s0, dp, cp, y.up); }
  }

  lemma OwnSlotIn(s0: Sys, dp: Dir, s: Sys, cp: Copy, y: Pos)
    requires Copying(s0, dp, s, cp) && y in cp.dc && y.Below?
    ensures SlotOf(y) in cp.dc
  {
    OwnSlot(s0, dp, cp, y);
  }

  lemma OwnNotShared(s0: Sys, dp: Dir, s: Sys, cp: Copy, y: Pos)
    requires Copying(s0, dp, s, cp) && y in cp.dc
    ensures !Shared(dp, cp, y)
  {
    if y.Below? { OwnSlot(s0, dp, cp, y); }
  }

  lemma EntryIs(s0: Sys, dp: Dir, s: Sys, cp: Copy, x: Pos, i: nat)
    requires Partial(s0, dp, s, cp) && x in dp && x in cp.dc && i < 512
    ensures 0 <= x.Level() <= 3 && CopyOk(s0, dp, s, cp, x, i, false) && EntryOk(s0.m, dp, x, i)
  {
    UnderTop(x);
  }

  lemma ParentIs(s0: Sys, dp: Dir, s: Sys, cp: Copy)
    requires Copying(s0, dp, s, cp)
    ensures Space(s0.m, dp)
  {
  }

  /** A table of the child below (x, i) means a link or a user 2 MiB leaf there. */
  lemma TableMeans(s0: Sys, dp: Dir, s: Sys, cp: Copy, x: Pos, i: nat)
    requires Copying(s0, dp, s, cp) && x in dp && i < 512 && 0 <= x.Level() <= 3 && Child(x, i) in cp.dc
    ensures IsLink(Entry(s0.m, dp, x, i), x.Level()) || UserBig(s0, dp, x, i)
  {
    assert NeedTable(s0, dp, Child(x, i));
    assert EntryOk(s0.m, dp, x, i);
  }

  /** Where (x, i) leads in the child. */
  lemma ChildAt(s0: Sys, dp: Dir, s: Sys, cp: Copy, x: Pos, i: nat)
    requires Copying(s0, dp, s, cp) && x in dp && x in cp.dc && i < 512
    ensures 0 <= x.Level() <= 3
    ensures Child(x, i) in ChildDir(dp, cp) <==>
            Child(x, i) in cp.dc || (x.Top? && IsLink(Entry(s0.m, dp, x, i), 3))
    ensures Child(x, i) in cp.dc ==> ChildDir(dp, cp)[Child(x, i)] == cp.dc[Child(x, i)]
    ensures x.Top? && IsLink(Entry(s0.m, dp, x, i), 3) && Child(x, i) !in cp.dc ==>
            ChildDir(dp, cp)[Child(x, i)] == Entry(s0.m, dp, x, i).frame
  {
    ParentIs(s0, dp, s, cp);
    assert EntryOk(s0.m, dp, x, i);
    if x.Below? { OwnSlot(s0, dp, cp, x); }
  }

  /** An own table's entries are those of the copy. */
  lemma OwnEntry(dp: Dir, cp: Copy, m: Mem, x: Pos, i: nat)
    requires x in cp.dc
    ensures Entry(m, ChildDir(dp, cp), x, i) == Entry(m, cp.dc, x, i)
  {
  }

  /** Access is granted above a user entry of the child, as in the parent. */
  lemma Granted(s0: Sys, dp: Dir, s: Sys, cp: Copy, x: Pos, i: nat)
    requires Partial(s0, dp, s, cp) && x in dp && x in cp.dc && i < 512 && x.Below?
    requires Entry(s0.m, dp, x, i).p && Entry(s0.m, dp, x, i).u
    ensures x.up in cp.dc && Entry(s.m, cp.dc, x.up, x.slot).u
  {
    ParentIs(s0, dp, s, cp);
    assert EntryOk(s0.m, dp, x, i) && x.up in dp && x.slot < 512 && x.up in cp.dc;
    assert Child(x.up, x.slot) == x && x.Valid();
    EntryIs(s0, dp, s, cp, x.up, x.slot);
    hide Copying, Space, FilledUnder, LevelDone;
  }

  lemma OwnEntryOk(s0: Sys, dp: Dir, s: Sys, cp: Copy, x: Pos, i: nat)
    requires Partial(s0, dp, s, cp) && x in dp && x in cp.dc && i < 512
    ensures 0 <= x.Level() <= 3 && EntryOk(s.m, ChildDir(dp, cp), x, i)
  {
    hide Copying, Space, LevelDone, FilledUnder, BigCopied, PageCopied;
    EntryIs(s0, dp, s, cp, x, i);
    ChildAt(s0, dp, s, cp, x, i);
    OwnEntry(dp, cp, s.m, x, i);
    var pe := Entry(s0.m, dp, x, i);
    if Child(x, i) in cp.dc { TableMeans(s0, dp, s, cp, x, i); }
    if pe.p && pe.u && x.Below? {
      Granted(s0, dp, s, cp, x, i);
      OwnEntry(dp, cp, s.m, x.up, x.slot);
    }
    hide ChildDir;
  }

  /** A table the copy made for a user 2 MiB leaf. */
  lemma SplitEntryOk(s0: Sys, dp: Dir, s: Sys, cp: Copy, c: Pos, j: nat)
    requires Partial(s0, dp, s, cp) && c in cp.dc && c !in dp && j < 512
    ensures c.Level() == 0 && c.Valid() && c.up in cp.dc && UserBig(s0, dp, c.up, c.slot) && Child(c.up, c.slot) == c
    ensures BigPage(s0, s, cp, c, Entry(s0.m, dp, c.up, c.slot), j, false)
    ensures EntryOk(s.m, ChildDir(dp, cp), c, j)
  {
    assert NeedTable(s0, dp, c);
    EntryIs(s0, dp, s, cp, c.up, c.slot);
    hide Copying, Space, LevelDone, FilledUnder;
    assert BigPage(s0, s, cp, c, Entry(s0.m, dp, c.up, c.slot), j, false);
    OwnEntry(dp, cp, s.m, c, j);
    OwnEntry(dp, cp, s.m, c.up, c.slot);
    hide ChildDir;
  }

  /** A shared table is the parent's, as it was. */
  lemma SharedEntry(s0: Sys, dp: Dir, s: Sys, cp: Copy, y: Pos, i: nat)
    requires Copying(s0, dp, s, cp) && Shared(dp, cp, y) && i < 512
    ensures y !in cp.dc && y in ChildDir(dp, cp) && ChildDir(dp, cp)[y] == dp[y]
    ensures Entry(s.m, ChildDir(dp, cp), y, i) == Entry(s0.m, dp, y, i)
  {
    if y in cp.dc { OwnNotShared(s0, dp, s, cp, y); }
    assert FrameKept(s0, s, dp[y]);
  }

  lemma SharedUp(s0: Sys, dp: Dir, s: Sys, cp: Copy, y: Pos)
    requires Partial(s0, dp, s, cp) && Shared(dp, cp, y)
    ensures y.Valid() && y.up in dp && y.slot < 512
    ensures Entry(s.m, ChildDir(dp, cp), y.up, y.slot) == Entry(s0.m, dp, y.up, y.slot)
  {
    hide Copying, LevelDone, FilledUnder;
    ParentIs(s0, dp, s, cp);
    assert y.up in dp && y.slot < 512 && y.Valid() && Child(y.up, y.slot) == y;
    if y.up.Top? {
      TopIn(s0, dp, s, cp);
      EntryIs(s0, dp, s, cp, Top, y.slot);
      OwnEntry(dp, cp, s.m, Top, y.slot);
    } else {
      SharedEntry(s0, dp, s, cp, y.up, y.slot);
    }
    hide Space, ChildDir;
  }

  lemma TopIn(s0: Sys, dp: Dir, s: Sys, cp: Copy)
    requires LevelDone(s0, dp, s, cp, Top, false)
    ensures Top in cp.dc
  {
  }

  lemma SharedEntryOk(s0: Sys, dp: Dir, s: Sys, cp: Copy, y: Pos, i: nat)
    requires Partial(s0, dp, s, cp) && Shared(dp, cp, y) && i < 512
    ensures 0 <= y.Level() <= 3 && EntryOk(s.m, ChildDir(dp, cp), y, i)
  {
    hide Copying, LevelDone;
    ParentIs(s0, dp, s, cp);
    assert EntryOk(s0.m, dp, y, i) && 0 <= y.Level() <= 3;
    hide Space;
    SharedEntry(s0, dp, s, cp, y, i);
    SharedUp(s0, dp, s, cp, y);
    if Child(y, i) in cp.dc { OwnSlotIn(s0, dp, s, cp, Child(y, i)); }
    if Child(y, i) in dp { SharedEntry(s0, dp, s, cp, Child(y, i), 0); }
    hide Entry;
  }

  lemma PlaceOk(s0: Sys, dp: Dir, s: Sys, cp: Copy, y: Pos)
    requires Partial(s0, dp, s, cp) && y in ChildDir(dp, cp)
    ensures y.Valid() && 0 <= y.Level() <= 3 && (y.Below? ==> y.up in ChildDir(dp, cp))
    ensures 0 < ChildDir(dp, cp)[y] < |s.m| && |s.m| == |s.used| && s.used[ChildDir(dp, cp)[y]]
  {
    ParentIs(s0, dp, s, cp);
    if y in cp.dc {
      CopyingBounds(s0, dp, s, cp, y);
      assert NewFrame(s0, s, cp.dc[y]) && NeedTable(s0, dp, y);
    } else {
      assert FrameKept(s0, s, dp[y]);
    }
  }

  lemma UsedApart(s0: Sys, dp: Dir, s: Sys, cp: Copy)
    requires Copying(s0, dp, s, cp)
    ensures forall x :: x in cp.dc ==> cp.dc[x] < |s0.used| && !s0.used[cp.dc[x]]
    ensures forall x :: x in dp ==> dp[x] < |s0.used| && s0.used[dp[x]]
    ensures OneFrameEach(cp.dc) && OneFrameEach(dp)
  {
    forall x | x in cp.dc
      ensures cp.dc[x] < |s0.used| && !s0.used[cp.dc[x]]
    {
      assert NewFrame(s0, s, cp.dc[x]);
    }
    hide Planned, NewFrame, PagesApart;
  }

  lemma FramesApart(s0: Sys, dp: Dir, s: Sys, cp: Copy)
    requires Copying(s0, dp, s, cp)
    ensures OneFrameEach(ChildDir(dp, cp))
  {
    hide Copying, Shared;
    UsedApart(s0, dp, s, cp);
  }

  /** The child is an address space, with a PML4 of its own, though some of its tables may be the parent's. */
  lemma ChildSpace(s0: Sys, dp: Dir, s: Sys, cp: Copy)
    requires Partial(s0, dp, s, cp)
    ensures Space(s.m, ChildDir(dp, cp)) && Owned(s, ChildDir(dp, cp))
    ensures Top in cp.dc && ChildDir(dp, cp)[Top] == cp.dc[Top]
  {
    hide Copying, FilledUnder, Shared;
    FramesApart(s0, dp, s, cp);
    var d := ChildDir(dp, cp);
    forall y | y in d
      ensures y.Valid() && 0 <= y.Level() <= 3 && 0 < d[y] < |s.m| && |s.m| == |s.used| && s.used[d[y]] &&
              (y.Below? ==> y.up in d)
    {
      PlaceOk(s0, dp, s, cp, y);
    }
    forall y, i | y in d && 0 <= i < 512
      ensures EntryOk(s.m, d, y, i)
    {
      if y in cp.dc && y in dp {
        OwnEntryOk(s0, dp, s, cp, y, i);
      } else if y in cp.dc {
        SplitEntryOk(s0, dp, s, cp, y, i);
      } else {
        SharedEntryOk(s0, dp, s, cp, y, i);
      }
    }
    hide EntryOk, ChildDir, OneFrameEach, LevelDone;
  }

  /** Nothing of the parent's tables is shared. */
  ghost predicate Separate(s0: Sys, dp: Dir, s: Sys, cp: Copy)
  {
    Partial(s0, dp, s, cp) && forall y :: y in dp ==> !Shared(dp, cp, y)
  }

  lemma SeparateSpace(s0: Sys, dp: Dir, s: Sys, cp: Copy)
    requires Separate(s0, dp, s, cp)
    ensures ChildDir(dp, cp) == cp.dc && Space(s.m, cp.dc) && Owned(s, cp.dc) && Copying(s0, dp, s, cp)
  {
    hide Copying, LevelDone, Shared, Space, Owned;
    ChildSpace(s0, dp, s, cp);
    assert ChildDir(dp, cp) == cp.dc;
  }

  /** The child and the parent have a table in common exactly if a slot is shared. */
  lemma SeparateIff(s0: Sys, dp: Dir, s: Sys, cp: Copy)
    requires Partial(s0, dp, s, cp)
    ensures Separate(s0, dp, s, cp) <==>
            forall x, y :: x in ChildDir(dp, cp) && y in dp ==> ChildDir(dp, cp)[x] != dp[y]
  {
    hide Copying, LevelDone;
    UsedApart(s0, dp, s, cp);
    if Separate(s0, dp, s, cp) { SeparateSpace(s0, dp, s, cp); }
    if y :| y in dp && Shared(dp, cp, y) { SharedEntry(s0, dp, s, cp, y, 0); }
    hide Shared;
  }

  // ----- what the child shows -----

  /** What the child shows for page `v`: the same access; a kernel page is the same frame, a user
      page a frame of its own with the same contents. */
  ghost predicate PageShown(s0: Sys, s: Sys, cp: Copy, v: Page, a: Option<Leaf>, b: Option<Leaf>)
  {
    && (a.None? <==> b.None?)
    && (a.Some? && b.Some? ==>
          && b.value.w == a.value.w && b.value.u == a.value.u
          && (!a.value.u ==> b.value.frame == a.value.frame)
          && (a.value.u ==>
               PageCopied(s0, s, cp, (At(v, 0), v.i1), a.value.frame) &&
               b.value.frame == cp.pg[(At(v, 0), v.i1)]))
  }

  lemma SlotPlaces(v: Page)
    ensures SlotOf(At(v, 0)) == SlotOf(At(v, 1)) == SlotOf(At(v, 2)) == At(v, 2)
    ensures At(v, 0).up == At(v, 1) && At(v, 1).up == At(v, 2) && At(v, 2) == Child(Top, v.i4)
  {
  }

  lemma SharedLevel(s0: Sys, dp: Dir, s: Sys, cp: Copy, v: Page, l: Level)
    requires Copying(s0, dp, s, cp) && Shared(dp, cp, At(v, 2)) && l < 3
    ensures At(v, l) in ChildDir(dp, cp) <==> At(v, l) in dp
    ensures At(v, l) in dp ==> ChildDir(dp, cp)[At(v, l)] == dp[At(v, l)]
    ensures At(v, l) in dp ==>
            Entry(s.m, ChildDir(dp, cp), At(v, l), Idx(v, l)) == Entry(s0.m, dp, At(v, l), Idx(v, l))
  {
    hide Copying;
    SlotPlaces(v);
    hide SlotOf;
    if At(v, l) in cp.dc { OwnSlotIn(s0, dp, s, cp, At(v, l)); }
    if At(v, l) in dp { SharedEntry(s0, dp, s, cp, At(v, l), Idx(v, l)); }
    hide Entry;
  }

  /** Pages of a shared slot: the child reads the parent's own tables. */
  lemma SharedView(s0: Sys, dp: Dir, s: Sys, cp: Copy, v: Page)
    requires Partial(s0, dp, s, cp) && Shared(dp, cp, At(v, 2))
    ensures View(s.m, ChildDir(dp, cp), v) == View(s0.m, dp, v)
    ensures At(v, 2) in dp && At(v, 2) in ChildDir(dp, cp) && ChildDir(dp, cp)[At(v, 2)] == dp[At(v, 2)]
  {
    hide Copying, ChildDir, LevelDone, FilledUnder;
    SharedLevel(s0, dp, s, cp, v, 0);
    SharedLevel(s0, dp, s, cp, v, 1);
    SharedLevel(s0, dp, s, cp, v, 2);
    hide Entry;
  }

  /** The last table on the child's path is its own, unless the slot is shared. */
  lemma LastOwn(s0: Sys, dp: Dir, s: Sys, cp: Copy, v: Page)
    requires Partial(s0, dp, s, cp) && !Shared(dp, cp, At(v, 2))
    ensures var l := Deep(ChildDir(dp, cp), v); At(v, l) in cp.dc && (l > 0 ==> At(v, l - 1) !in cp.dc)
  {
    SlotPlaces(v);
    ParentIs(s0, dp, s, cp);
    assert Top in cp.dc;
  }

  /** A present entry of an own table that does not lead on: a kernel leaf as it is, or a copied user leaf. */
  lemma OwnLeaf(s0: Sys, s: Sys, cp: Copy, x: Pos, i: nat, pe: Pte, ce: Pte)
    requires 0 <= x.Level() <= 3 && EntryCopied(s0, s, cp, x, i, pe, ce, false) && ce.p && !IsLink(ce, x.Level())
    requires x.Level() == 2 && IsLeaf(pe, 2) ==> !pe.u
    ensures IsLeaf(pe, x.Level())
    ensures if pe.u then x.Level() == 0 && PageCopied(s0, s, cp, (x, i), pe.frame) && ce == CopyLeaf(pe, cp.pg[(x, i)])
            else ce == pe
  {
    hide BigCopied, PageCopied;
  }

  lemma ShownOwn(s0: Sys, s: Sys, cp: Copy, v: Page, l: Level, pe: Pte, ce: Pte)
    requires EntryCopied(s0, s, cp, At(v, l), Idx(v, l), pe, ce, false) && !IsLink(ce, l)
    requires l == 2 && IsLeaf(pe, l) ==> !pe.u
    ensures !ce.p || (IsLeaf(pe, l) && PageShown(s0, s, cp, v, Seen(pe, l, v), Seen(ce, l, v)))
  {
    hide EntryCopied, PageCopied;
    AtLevel(v, l);
    if ce.p { OwnLeaf(s0, s, cp, At(v, l), Idx(v, l), pe, ce); }
    hide LeafFrame;
  }

  lemma OwnLast(s0: Sys, dp: Dir, s: Sys, cp: Copy, v: Page)
    requires Partial(s0, dp, s, cp) && !Shared(dp, cp, At(v, 2))
    ensures var d := ChildDir(dp, cp); var l := Deep(d, v);
            var ce := Entry(s.m, cp.dc, At(v, l), Idx(v, l)); !IsLink(ce, l) && View(s.m, d, v) == Seen(ce, l, v)
  {
    hide Copying, FilledUnder, LevelDone;
    var d := ChildDir(dp, cp);
    var l := Deep(d, v);
    LastOwn(s0, dp, s, cp, v);
    ChildSpace(s0, dp, s, cp);
    StepDown(s.m, d, v, l);
    OwnEntry(dp, cp, s.m, At(v, l), Idx(v, l));
    hide ChildDir, Space, Entry;
  }

  lemma ParentLast(m: Mem, d: Dir, v: Page, l: Level)
    requires Space(m, d) && At(v, l) in d && IsLeaf(Entry(m, d, At(v, l), Idx(v, l)), l)
    ensures View(m, d, v) == Seen(Entry(m, d, At(v, l), Idx(v, l)), l, v)
  {
    StepDown(m, d, v, l);
    DeepIsLast(m, d, v, l);
    hide Space, Entry;
  }

  lemma OwnView(s0: Sys, dp: Dir, s: Sys, cp: Copy, v: Page)
    requires Partial(s0, dp, s, cp) && !Shared(dp, cp, At(v, 2))
    requires At(v, Deep(ChildDir(dp, cp), v)) in dp
    ensures var b := View(s.m, ChildDir(dp, cp), v); b == None || PageShown(s0, s, cp, v, View(s0.m, dp, v), b)
  {
    hide Copying, FilledUnder, LevelDone, EntryCopied, PageShown, ChildDir, Space, Deep, View, Entry, At;
    var l := Deep(ChildDir(dp, cp), v);
    var x, i := At(v, l), Idx(v, l);
    AtLevel(v, l);
    LastOwn(s0, dp, s, cp, v);
    OwnLast(s0, dp, s, cp, v);
    EntryIs(s0, dp, s, cp, x, i);
    ParentIs(s0, dp, s, cp);
    var pe, ce := Entry(s0.m, dp, x, i), Entry(s.m, cp.dc, x, i);
    ShownOwn(s0, s, cp, v, l, pe, ce);
    if ce.p { ParentLast(s0.m, dp, v, l); }
  }

  lemma AtLevel(v: Page, l: Level)
    ensures At(v, l).Level() == l
  {
  }

  lemma SplitView(s0: Sys, dp: Dir, s: Sys, cp: Copy, v: Page)
    requires Partial(s0, dp, s, cp) && !Shared(dp, cp, At(v, 2))
    requires At(v, Deep(ChildDir(dp, cp), v)) !in dp
    ensures var b := View(s.m, ChildDir(dp, cp), v); b == None || PageShown(s0, s, cp, v, View(s0.m, dp, v), b)
  {
    hide Copying, FilledUnder, LevelDone, EntryCopied;
    var d := ChildDir(dp, cp);
    var l := Deep(d, v);
    LastOwn(s0, dp, s, cp, v);
    SplitEntryOk(s0, dp, s, cp, At(v, l), Idx(v, l));
    OwnEntry(dp, cp, s.m, At(v, l), Idx(v, l));
    SlotPlaces(v);
    ParentIs(s0, dp, s, cp);
    hide ChildDir;
    assert l == 0 && At(v, 1) in dp;
    StepDown(s0.m, dp, v, 1);
    DeepIsLast(s0.m, dp, v, 1);
    hide Space;
  }

  /** Every page of the child, when frames ran out or not: in a shared slot it is the parent's own page;
      elsewhere it is left out, or shown as in a complete copy. */
  lemma ChildView(s0: Sys, dp: Dir, s: Sys, cp: Copy, v: Page)
    requires Partial(s0, dp, s, cp)
    ensures var a, b := View(s0.m, dp, v), View(s.m, ChildDir(dp, cp), v);
            if Shared(dp, cp, At(v, 2)) then b == a else b == None || PageShown(s0, s, cp, v, a, b)
  {
    if Shared(dp, cp, At(v, 2)) {
      SharedView(s0, dp, s, cp, v);
    } else if At(v, Deep(ChildDir(dp, cp), v)) in dp {
      OwnView(s0, dp, s, cp, v);
    } else {
      SplitView(s0, dp, s, cp, v);
    }
  }

  lemma SeparateView(s0: Sys, dp: Dir, s: Sys, cp: Copy, v: Page)
    requires Separate(s0, dp, s, cp)
    ensures var b := View(s.m, cp.dc, v); b == None || PageShown(s0, s, cp, v, View(s0.m, dp, v), b)
  {
    SeparateSpace(s0, dp, s, cp);
    ChildView(s0, dp, s, cp, v);
  }
}
