/** What a complete copy of an address space is worth: the child is an address space of its own
    that shows the parent's pages, and the two share nothing that either can change. */
module VmCopy {
  import opened PageTables
  import opened VmSpec
  import opened VmFork
  import opened VmChild

  /** Every entry of the parent is copied. */
  ghost predicate Complete(s0: Sys, dp: Dir, s: Sys, cp: Copy)
  {
    Copying(s0, dp, s, cp) && LevelDone(s0, dp, s, cp, Top, true)
  }

  lemma OfParent(s0: Sys, dp: Dir, s: Sys, cp: Copy)
    requires Complete(s0, dp, s, cp)
    ensures Space(s0.m, dp) && Copying(s0, dp, s, cp)
  {
  }

  lemma EntryDone(s0: Sys, dp: Dir, s: Sys, cp: Copy, x: Pos, i: nat)
    requires Complete(s0, dp, s, cp) && x in dp && i < 512
    ensures 0 <= x.Level() <= 3 && CopyOk(s0, dp, s, cp, x, i, true) && EntryOk(s0.m, dp, x, i)
  {
    UnderTop(x);
  }

  /** A table of the child below (x, i) means a link or a user 2 MiB leaf there. */
  lemma ChildNeeded(s0: Sys, dp: Dir, s: Sys, cp: Copy, x: Pos, i: nat)
    requires Complete(s0, dp, s, cp) && x in dp && i < 512 && 0 <= x.Level() <= 3 && Child(x, i) in cp.dc
    ensures IsLink(Entry(s0.m, dp, x, i), x.Level()) || UserBig(s0, dp, x, i)
  {
    assert NeedTable(s0, dp, Child(x, i));
    assert EntryOk(s0.m, dp, x, i);
  }

  lemma IsPartial(s0: Sys, dp: Dir, s: Sys, cp: Copy)
    requires Complete(s0, dp, s, cp)
    ensures Partial(s0, dp, s, cp)
  {
    FilledWeak(s0, dp, s, cp, Top);
  }

  /** A complete copy shares nothing. */
  lemma IsSeparate(s0: Sys, dp: Dir, s: Sys, cp: Copy)
    requires Complete(s0, dp, s, cp)
    ensures Separate(s0, dp, s, cp)
  {
    IsPartial(s0, dp, s, cp);
    forall y | y in dp
      ensures !Shared(dp, cp, y)
    {
      EntryDone(s0, dp, s, cp, y, 0);
      OwnNotShared(s0, dp, s, cp, y);
    }
    hide Copying, LevelDone, Shared;
  }

  /** The child is an address space in its own tables. */
  lemma CopiedSpace(s0: Sys, dp: Dir, s: Sys, cp: Copy)
    requires Complete(s0, dp, s, cp)
    ensures Space(s.m, cp.dc) && Owned(s, cp.dc)
  {
    hide Complete, Separate, Space, Owned;
    IsSeparate(s0, dp, s, cp);
    SeparateSpace(s0, dp, s, cp);
  }

  /** A page inside a user 2 MiB leaf of the parent. */
  lemma ShownBig(s0: Sys, s: Sys, cp: Copy, v: Page, pe: Pte)
    requires BigCopied(s0, s, cp, At(v, 0), pe, 512, true) && pe.p && pe.u && pe.frame % 512 == 0
    ensures PageShown(s0, s, cp, v, Seen(pe, 1, v), View(s.m, cp.dc, v))
  {
    assert BigPage(s0, s, cp, At(v, 0), pe, v.i1, true);
  }

  lemma ShownPlain(s0: Sys, s: Sys, cp: Copy, v: Page, l: Level, pe: Pte, ce: Pte)
    requires EntryCopied(s0, s, cp, At(v, l), Idx(v, l), pe, ce, true) && !IsLink(pe, l) && !(l == 1 && pe.p && pe.u) &&
             !(l >= 2 && pe.p && pe.u)
    ensures PageShown(s0, s, cp, v, Seen(pe, l, v), Seen(ce, l, v))
  {
  }

  lemma CopiedView(s0: Sys, dp: Dir, s: Sys, cp: Copy, v: Page)
    requires Complete(s0, dp, s, cp)
    ensures PageShown(s0, s, cp, v, View(s0.m, dp, v), View(s.m, cp.dc, v))
  {
    hide CopyLeaf, SplitLink, LinkCopied, BigCopied, PageCopied, PageShown, Copying, LevelDone;
    var l := Deep(dp, v);
    var x, i := At(v, l), Idx(v, l);
    ViewPlaces(s0, dp, s, cp, v);
    var pe := Entry(s0.m, dp, x, i);
    EntryDone(s0, dp, s, cp, x, i);
    if l == 1 && pe.p && pe.u {
      ShownBig(s0, s, cp, v, pe);
    } else {
      ShownPlain(s0, s, cp, v, l, pe, Entry(s.m, cp.dc, x, i));
    }
  }

  /** The child's page keeps the other flags too, unless it was in a user 2 MiB leaf: A, D, G and NX
      are lost there. */
  lemma CopiedFlags(s0: Sys, dp: Dir, s: Sys, cp: Copy, v: Page)
    requires Complete(s0, dp, s, cp) && LeafOf(s0.m, dp, v).p
    ensures var pe := LeafOf(s0.m, dp, v);
            SameFlags(LeafOf(s.m, cp.dc, v), pe) <==> !(Deep(dp, v) == 1 && pe.u && (pe.a || pe.d || pe.g || pe.nx))
  {
    hide CopyLeaf, SplitLink, LinkCopied, BigCopied, PageCopied, SameFlags, Copying, LevelDone;
    var l := Deep(dp, v);
    var x, i := At(v, l), Idx(v, l);
    ViewPlaces(s0, dp, s, cp, v);
    var pe := Entry(s0.m, dp, x, i);
    EntryDone(s0, dp, s, cp, x, i);
    if l == 1 && pe.u {
      FlagsBig(s0, s, cp, v, pe);
    } else {
      FlagsPlain(s0, s, cp, v, l, pe, Entry(s.m, cp.dc, x, i));
    }
  }

  lemma FlagsBig(s0: Sys, s: Sys, cp: Copy, v: Page, pe: Pte)
    requires BigCopied(s0, s, cp, At(v, 0), pe, 512, true)
    ensures SameFlags(LeafOf(s.m, cp.dc, v), pe) <==> !(pe.a || pe.d || pe.g || pe.nx)
  {
    assert BigPage(s0, s, cp, At(v, 0), pe, v.i1, true);
  }

  lemma FlagsPlain(s0: Sys, s: Sys, cp: Copy, v: Page, l: Level, pe: Pte, ce: Pte)
    requires EntryCopied(s0, s, cp, At(v, l), Idx(v, l), pe, ce, true) && pe.p && !IsLink(pe, l) && !(l == 1 && pe.u)
    requires !(l == 3 && pe.u)
    ensures SameFlags(ce, pe)
  {
  }

  /** The child's path for `v` is as deep as the parent's, but for split leaves. */
  lemma ViewPlaces(s0: Sys, dp: Dir, s: Sys, cp: Copy, v: Page)
    requires Complete(s0, dp, s, cp)
    ensures var l := Deep(dp, v); var pe := Entry(s0.m, dp, At(v, l), Idx(v, l));
            && At(v, l) in dp && !IsLink(pe, l)
            && (l > 0 ==> Child(At(v, l), Idx(v, l)) == At(v, l - 1))
            && (!(l == 1 && pe.p && pe.u) ==> Deep(cp.dc, v) == l)
  {
    hide Copying, LevelDone, Space, EntryOk, CopyOk;
    var l := Deep(dp, v);
    OfParent(s0, dp, s, cp);
    LastTable(s0.m, dp, v);
    CopiedSpace(s0, dp, s, cp);
    EntryDone(s0, dp, s, cp, At(v, l), Idx(v, l));
    assert At(v, l) in cp.dc;
    if l > 0 && At(v, l - 1) in cp.dc { ChildNeeded(s0, dp, s, cp, At(v, l), Idx(v, l)); }
    if l == 0 || At(v, l - 1) !in cp.dc { DeepIsLast(s.m, cp.dc, v, l); }
  }

  lemma LastTable(m: Mem, d: Dir, v: Page)
    requires Space(m, d)
    ensures var l := Deep(d, v);
            At(v, l) in d && !IsLink(Entry(m, d, At(v, l), Idx(v, l)), l) &&
            (l > 0 ==> Child(At(v, l), Idx(v, l)) == At(v, l - 1))
  {
    StepDown(m, d, v, Deep(d, v));
  }

  /** The parent's tables and pages are untouched. */
  lemma ParentUntouched(s0: Sys, dp: Dir, s: Sys, cp: Copy)
    requires Copying(s0, dp, s, cp)
    ensures Space(s.m, dp) && SameViews(s0.m, dp, s.m, dp) && forall x :: x in dp ==> Outside(cp.dc, dp[x])
  {
    forall x | x in dp
      ensures s.m[dp[x]] == s0.m[dp[x]]
    {
      assert FrameKept(s0, s, dp[x]);
    }
    SpaceFrame(s0.m, s.m, dp);
    forall x, y | x in dp && y in cp.dc
      ensures cp.dc[y] != dp[x]
    {
      assert NewFrame(s0, s, cp.dc[y]);
    }
  }
}
