/** Copying an address space for fork (copy_pt_level and vmm_copy_user_page_tables in
    kernel/mm/vmm.c), as a relation between the parent's tables and the child's. */
module VmFork {
  import opened PageTables
  import opened PhysMem
  import opened VmSpec

  /** A leaf slot: a table's place and an index in it. */
  type SlotKey = (Pos, nat)

  /** What the copy has built so far: the child's tables and its copied pages. */
  datatype Copy = Copy(dc: Dir, pg: map<SlotKey, nat>)
  {
    function AddTable(x: Pos, f: nat): Copy
    {
      Copy(dc[x := f], pg)
    }

    function AddPage(k: SlotKey, f: nat): Copy
    {
      Copy(dc, pg[k := f])
    }
  }

  /** `y` is `x` or lies below it. */
  predicate Under(y: Pos, x: Pos)
    decreases y
  {
    y == x || (y.Below? && Under(y.up, x))
  }

  // ----- the entries the copy writes -----

  /** The child's link: P, W, and the parent's U, PWT and PCD. */
  function CopyLink(pe: Pte, f: nat): Pte
  {
    Pte(true, true, pe.u, pe.pwt, pe.pcd, false, false, false, false, 0, f, 0, false)
  }

  /** A link of the copy to the table in frame `f`; cloning the kernel drops PWT and PCD in the PML4. */
  predicate LinkCopied(x: Pos, pe: Pte, ce: Pte, f: nat)
  {
    ce == CopyLink(pe, f) || (x.Top? && !pe.u && ce == LinkTo(f, false))
  }

  /** The link to the table that replaces a user 2 MiB leaf: W too is the parent's. */
  function SplitLink(pe: Pte, f: nat): Pte
  {
    Pte(true, pe.w, pe.u, pe.pwt, pe.pcd, false, false, false, false, 0, f, 0, false)
  }

  /** A copied 4 KiB user leaf keeps every flag. */
  function CopyLeaf(pe: Pte, f: nat): Pte
  {
    pe.(frame := f)
  }

  // ----- what is built -----

  ghost predicate NewFrame(s0: Sys, s: Sys, f: nat)
  {
    0 < f < |s.used| && f < |s.refs| && f < |s0.used| && f < |s.data| && f < |s.m| && !s0.used[f] && s.used[f] &&
      s.refs[f] == 1
  }

  ghost predicate FrameKept(s0: Sys, s: Sys, f: nat)
    requires |s.m| == |s0.m| && |s.data| == |s0.data| && |s.used| == |s0.used| && |s.refs| == |s0.refs|
    requires 0 <= f < |s0.used| && f < |s0.m| && f < |s0.data| && f < |s0.refs|
  {
    s.used[f] && s.m[f] == s0.m[f] && s.data[f] == s0.data[f] && s.refs[f] == s0.refs[f]
  }

  /** Every frame that was in use is as it was. */
  ghost predicate AllKept(s0: Sys, s: Sys)
  {
    && |s.m| == |s0.m| && |s.data| == |s0.data| && |s.used| == |s0.used| && |s.refs| == |s0.refs|
    && |s0.used| == |s0.m| == |s0.data| == |s0.refs|
    && forall f :: 0 <= f < |s0.used| && s0.used[f] ==> FrameKept(s0, s, f)
  }

  ghost predicate PagesApart(cp: Copy)
  {
    && (forall k, j :: k in cp.pg && j in cp.pg && cp.pg[k] == cp.pg[j] ==> k == j)
    && (forall x, k :: x in cp.dc && k in cp.pg ==> cp.dc[x] != cp.pg[k])
  }

  ghost predicate Used(cp: Copy, f: nat)
  {
    (exists x :: x in cp.dc && cp.dc[x] == f) || (exists k :: k in cp.pg && cp.pg[k] == f)
  }

  /** The frames taken since `s0` are the child's tables and pages, one each. */
  ghost predicate Building(s0: Sys, s: Sys, cp: Copy)
  {
    && Sane(s) && AllKept(s0, s) && OneFrameEach(cp.dc) && PagesApart(cp)
    && (forall x :: x in cp.dc ==> NewFrame(s0, s, cp.dc[x]))
    && (forall k :: k in cp.pg ==> NewFrame(s0, s, cp.pg[k]))
    && (forall f :: 0 <= f < |s.used| && s.used[f] && !s0.used[f] ==> Used(cp, f))
  }

  /** `cp'` has all of `cp`; the child's tables but the one in frame `t` and all its pages are as
      they were. */
  ghost predicate Later(s: Sys, cp: Copy, s': Sys, cp': Copy, t: nat)
  {
    && |s'.m| == |s.m| && |s'.data| == |s.data|
    && (forall y :: y in cp.dc ==> y in cp'.dc && cp'.dc[y] == cp.dc[y])
    && (forall k :: k in cp.pg ==> k in cp'.pg && cp'.pg[k] == cp.pg[k])
    && (forall y :: y in cp.dc && cp.dc[y] != t && cp.dc[y] < |s.m| ==> s'.m[cp.dc[y]] == s.m[cp.dc[y]])
    && (forall k :: k in cp.pg && cp.pg[k] < |s.data| ==> s'.data[cp.pg[k]] == s.data[cp.pg[k]])
  }

  lemma LaterTrans(s: Sys, cp: Copy, s1: Sys, cp1: Copy, s2: Sys, cp2: Copy, t: nat)
    requires Later(s, cp, s1, cp1, t) && Later(s1, cp1, s2, cp2, t)
    ensures Later(s, cp, s2, cp2, t)
  {
  }

  /** `s'` is `s` but for frame `f`, which it hands out. */
  ghost predicate TookFrame(s: Sys, s': Sys, f: nat)
  {
    && Fresh(s, f) && f < |s.data| && |s'.m| == |s.m| && |s'.data| == |s.data|
    && s'.used == s.used[f := true] && s'.refs == s.refs[f := 1]
    && (forall g :: 0 <= g < |s.m| && g != f ==> s'.m[g] == s.m[g])
    && (forall g :: 0 <= g < |s.data| && g != f ==> s'.data[g] == s.data[g])
  }

  lemma KeptByTaking(s0: Sys, s: Sys, s': Sys, f: nat)
    requires Sane(s) && AllKept(s0, s) && TookFrame(s, s', f)
    ensures Sane(s') && AllKept(s0, s') && NewFrame(s0, s', f)
    ensures forall g :: NewFrame(s0, s, g) ==> NewFrame(s0, s', g) && g != f
  {
    forall g | 0 <= g < |s0.used| && s0.used[g]
      ensures g != f && FrameKept(s0, s', g)
    {
      assert FrameKept(s0, s, g);
    }
  }

  lemma BuildTable(s0: Sys, s: Sys, cp: Copy, x: Pos, f: nat)
    requires Building(s0, s, cp) && Fresh(s, f) && x !in cp.dc
    ensures Building(s0, Taken(s, f, EmptyTable()), cp.AddTable(x, f))
    ensures Later(s, cp, Taken(s, f, EmptyTable()), cp.AddTable(x, f), 0)
  {
    hide OneFrameEach, PagesApart;
    var s', cp' := Taken(s, f, EmptyTable()), cp.AddTable(x, f);
    KeptByTaking(s0, s, s', f);
    hide AllKept, Sane, NewFrame;
    AddApart(cp, x, (x, 0), f);
    UsedMore(cp, cp');
    assert cp'.dc[x] == f && Used(cp', f);
    hide Used;
  }

  lemma AddApart(cp: Copy, x: Pos, k: SlotKey, f: nat)
    requires OneFrameEach(cp.dc) && PagesApart(cp) && Outside(cp.dc, f) && forall j :: j in cp.pg ==> cp.pg[j] != f
    ensures OneFrameEach(cp.dc[x := f]) && PagesApart(cp.AddTable(x, f)) && PagesApart(cp.AddPage(k, f))
  {
  }

  lemma UsedMore(cp: Copy, cp': Copy)
    requires forall y :: y in cp.dc ==> y in cp'.dc && cp'.dc[y] == cp.dc[y]
    requires forall k :: k in cp.pg ==> k in cp'.pg && cp'.pg[k] == cp.pg[k]
    ensures forall f :: Used(cp, f) ==> Used(cp', f)
  {
  }

  /** A fresh frame filled with `b`. */
  function TakenWith(s: Sys, f: nat, b: Bytes): Sys
    requires f < |s.data| && f < |s.used| && f < |s.refs|
  {
    Sys(s.m, s.data[f := b], s.used[f := true], s.refs[f := 1])
  }

  lemma BuildPage(s0: Sys, s: Sys, cp: Copy, k: SlotKey, f: nat, b: Bytes)
    requires Building(s0, s, cp) && Fresh(s, f) && k !in cp.pg
    ensures Building(s0, TakenWith(s, f, b), cp.AddPage(k, f))
    ensures Later(s, cp, TakenWith(s, f, b), cp.AddPage(k, f), 0)
  {
    hide OneFrameEach, PagesApart;
    var s', cp' := TakenWith(s, f, b), cp.AddPage(k, f);
    KeptByTaking(s0, s, s', f);
    hide AllKept, Sane, NewFrame;
    AddApart(cp, Top, k, f);
    UsedMore(cp, cp');
    assert cp'.pg[k] == f && Used(cp', f);
    hide Used;
  }

  lemma BuildWrite(s0: Sys, s: Sys, cp: Copy, x: Pos, i: nat, e: Pte)
    requires Building(s0, s, cp) && x in cp.dc && i < 512
    ensures cp.dc[x] < |s.m|
    ensures Building(s0, s.WithMem(Poke(s.m, cp.dc[x], i, e)), cp)
    ensures Later(s, cp, s.WithMem(Poke(s.m, cp.dc[x], i, e)), cp, cp.dc[x])
  {
    var s' := s.WithMem(Poke(s.m, cp.dc[x], i, e));
    assert NewFrame(s0, s, cp.dc[x]);
    forall g | 0 <= g < |s0.used| && s0.used[g]
      ensures FrameKept(s0, s', g)
    {
      assert FrameKept(s0, s, g);
    }
  }

  // ----- entry by entry -----

  /** Frame `f` is memory in use. */
  predicate InUse(s: Sys, f: nat)
  {
    f < |s.data| && f < |s.used| && s.used[f]
  }

  /** The page in slot `k` holds what frame `from` held, if that was memory in use. */
  ghost predicate PageCopied(s0: Sys, s: Sys, cp: Copy, k: SlotKey, from: nat)
  {
    k in cp.pg && cp.pg[k] < |s.data| && (InUse(s0, from) ==> s.data[cp.pg[k]] == s0.data[from])
  }

  // What follows takes `full`: a full copy has everything; one that is not may have left out entries for
  // which there was no frame.

  /** Page `j` of the user 2 MiB leaf `pe`, in the table at `c`. */
  ghost predicate BigPage(s0: Sys, s: Sys, cp: Copy, c: Pos, pe: Pte, j: nat, full: bool)
  {
    if (c, j) in cp.pg then
      PageCopied(s0, s, cp, (c, j), pe.frame + j) && Entry(s.m, cp.dc, c, j) == SplitLink(pe, cp.pg[(c, j)])
    else !full && Entry(s.m, cp.dc, c, j) == ZERO
  }

  /** The table at `c` has a copy of each of the first `n` pages of the user 2 MiB leaf `pe`. */
  ghost predicate BigCopied(s0: Sys, s: Sys, cp: Copy, c: Pos, pe: Pte, n: nat, full: bool)
  {
    c in cp.dc && forall j: nat {:trigger BigPage(s0, s, cp, c, pe, j, full)} ::
      j < n ==> BigPage(s0, s, cp, c, pe, j, full)
  }

  /** How the child's entry (x, i) follows from the parent's. */
  ghost predicate CopyOk(s0: Sys, dp: Dir, s: Sys, cp: Copy, x: Pos, i: nat, full: bool)
    requires 0 <= x.Level() <= 3
  {
    x in cp.dc && EntryCopied(s0, s, cp, x, i, Entry(s0.m, dp, x, i), Entry(s.m, cp.dc, x, i), full)
  }

  /** An entry left out is absent, but in the PML4 it leads to the parent's own table. */
  ghost predicate EntryCopied(s0: Sys, s: Sys, cp: Copy, x: Pos, i: nat, pe: Pte, ce: Pte, full: bool)
    requires 0 <= x.Level() <= 3
  {
    if !pe.p then ce == ZERO
    else if IsLink(pe, x.Level()) then
      if Child(x, i) in cp.dc then LinkCopied(x, pe, ce, cp.dc[Child(x, i)])
      else !full && ce == if x.Top? then pe else ZERO
    else if !pe.u || x.Level() == 2 then ce == pe
    else if x.Level() == 0 then
      if (x, i) in cp.pg then PageCopied(s0, s, cp, (x, i), pe.frame) && ce == CopyLeaf(pe, cp.pg[(x, i)])
      else !full && ce == ZERO
    else if Child(x, i) in cp.dc then
      BigCopied(s0, s, cp, Child(x, i), pe, 512, full) && ce == SplitLink(pe, cp.dc[Child(x, i)])
    else !full && ce == ZERO
  }

  /** Every table at or below `z` that the copy has, or for a full copy that the parent has, is filled. */
  ghost predicate FilledUnder(s0: Sys, dp: Dir, s: Sys, cp: Copy, z: Pos, full: bool)
  {
    forall y, j :: y in dp && (full || y in cp.dc) && 0 <= y.Level() <= 3 && Under(y, z) && 0 <= j < 512 ==>
      CopyOk(s0, dp, s, cp, y, j, full)
  }

  /** Entry (x, i) and everything below it is copied. */
  ghost predicate Done(s0: Sys, dp: Dir, s: Sys, cp: Copy, x: Pos, i: nat, full: bool)
    requires 0 <= x.Level() <= 3
  {
    CopyOk(s0, dp, s, cp, x, i, full) && FilledUnder(s0, dp, s, cp, Child(x, i), full)
  }

  /** A full copy is one that may have left things out. */
  lemma OkWeak(s0: Sys, dp: Dir, s: Sys, cp: Copy, x: Pos, i: nat)
    requires 0 <= x.Level() <= 3 && CopyOk(s0, dp, s, cp, x, i, true)
    ensures CopyOk(s0, dp, s, cp, x, i, false)
  {
    var pe := Entry(s0.m, dp, x, i);
    if IsLeaf(pe, x.Level()) && pe.u && x.Level() == 1 { BigWeak(s0, s, cp, Child(x, i), pe, 512); }
    hide BigCopied;
  }

  lemma BigWeak(s0: Sys, s: Sys, cp: Copy, c: Pos, pe: Pte, n: nat)
    requires BigCopied(s0, s, cp, c, pe, n, true)
    ensures BigCopied(s0, s, cp, c, pe, n, false)
  {
    forall j: nat | j < n
      ensures BigPage(s0, s, cp, c, pe, j, false)
    {
      assert BigPage(s0, s, cp, c, pe, j, true);
    }
  }

  lemma FilledWeak(s0: Sys, dp: Dir, s: Sys, cp: Copy, z: Pos)
    requires FilledUnder(s0, dp, s, cp, z, true)
    ensures FilledUnder(s0, dp, s, cp, z, false)
  {
    forall y, j | y in dp && y in cp.dc && 0 <= y.Level() <= 3 && Under(y, z) && 0 <= j < 512
      ensures CopyOk(s0, dp, s, cp, y, j, false)
    {
      OkWeak(s0, dp, s, cp, y, j);
    }
  }

  lemma DoneWeak(s0: Sys, dp: Dir, s: Sys, cp: Copy, x: Pos, i: nat, full: bool, weak: bool)
    requires 0 <= x.Level() <= 3 && Done(s0, dp, s, cp, x, i, full) && (weak ==> full)
    ensures Done(s0, dp, s, cp, x, i, weak)
  {
    if full && !weak {
      OkWeak(s0, dp, s, cp, x, i);
      FilledWeak(s0, dp, s, cp, Child(x, i));
    }
  }

  /** Nothing is new at entry (y, j). */
  ghost predicate NotNew(cp: Copy, cp': Copy, y: Pos, j: nat)
  {
    && (Child(y, j) in cp'.dc ==> Child(y, j) in cp.dc)
    && (forall k :: k in cp'.pg && (k == (y, j) || k.0 == Child(y, j)) ==> k in cp.pg)
  }

  /** Copied entries stay so while the copy goes on elsewhere. */
  lemma CopyKept(s0: Sys, dp: Dir, s: Sys, cp: Copy, s': Sys, cp': Copy, t: nat, y: Pos, j: nat, full: bool)
    requires 0 <= y.Level() <= 3 && CopyOk(s0, dp, s, cp, y, j, full) && Building(s0, s, cp)
    requires Later(s, cp, s', cp', t) && j < 512 && s'.m[cp.dc[y]][j] == s.m[cp.dc[y]][j]
    requires y.Level() == 1 && Child(y, j) in cp.dc ==> cp.dc[Child(y, j)] != t
    requires NotNew(cp, cp', y, j)
    ensures CopyOk(s0, dp, s', cp', y, j, full)
  {
    assert NewFrame(s0, s, cp.dc[y]);
    var pe := Entry(s0.m, dp, y, j);
    assert Entry(s'.m, cp'.dc, y, j) == Entry(s.m, cp.dc, y, j);
    if IsLeaf(pe, y.Level()) && pe.u && y.Level() == 1 {
      if Child(y, j) in cp.dc { BigKept(s0, s, cp, s', cp', t, Child(y, j), pe, 512, full); }
    } else if IsLeaf(pe, y.Level()) && pe.u && y.Level() == 0 {
      if PageCopied(s0, s, cp, (y, j), pe.frame) { PageKept(s0, s, cp, s', cp', t, (y, j), pe.frame); }
    }
  }

  lemma PageKept(s0: Sys, s: Sys, cp: Copy, s': Sys, cp': Copy, t: nat, k: SlotKey, from: nat)
    requires PageCopied(s0, s, cp, k, from) && Later(s, cp, s', cp', t)
    ensures PageCopied(s0, s', cp', k, from) && cp'.pg[k] == cp.pg[k]
  {
  }

  lemma BigKept(s0: Sys, s: Sys, cp: Copy, s': Sys, cp': Copy, t: nat, c: Pos, pe: Pte, n: nat, full: bool)
    requires BigCopied(s0, s, cp, c, pe, n, full) && Later(s, cp, s', cp', t) && cp.dc[c] != t && n <= 512
    requires cp.dc[c] < |s.m| && forall k :: k in cp'.pg && k.0 == c ==> k in cp.pg
    ensures BigCopied(s0, s', cp', c, pe, n, full)
  {
    forall j: nat | j < n
      ensures BigPage(s0, s', cp', c, pe, j, full)
    {
      assert BigPage(s0, s, cp, c, pe, j, full);
      if PageCopied(s0, s, cp, (c, j), pe.frame + j) { PageKept(s0, s, cp, s', cp', t, (c, j), pe.frame + j); }
    }
  }

  // ----- places below a place -----

  ghost function Depth(x: Pos): nat
  {
    if x.Top? then 0 else 1 + Depth(x.up)
  }

  lemma {:induction false} UnderDepth(y: Pos, x: Pos)
    requires Under(y, x)
    ensures Depth(y) >= Depth(x)
    decreases y
  {
    if y != x { UnderDepth(y.up, x); }
  }

  lemma {:induction false} UnderTop(y: Pos)
    ensures Under(y, Top)
    decreases y
  {
    if y.Below? { UnderTop(y.up); }
  }

  lemma {:induction false} UnderOneChild(y: Pos, x: Pos, a: nat, b: nat)
    requires Under(y, Child(x, a)) && Under(y, Child(x, b))
    ensures a == b
    decreases y
  {
    if y == Child(x, a) || y == Child(x, b) {
      assert y.up == x;
      if Under(x, Child(x, a)) { UnderDepth(x, Child(x, a)); }
      if Under(x, Child(x, b)) { UnderDepth(x, Child(x, b)); }
    } else {
      UnderOneChild(y.up, x, a, b);
    }
  }

  lemma {:induction false} UnderTrans(y: Pos, x: Pos, z: Pos)
    requires Under(y, x) && Under(x, z)
    ensures Under(y, z)
    decreases y
  {
    if y != x { UnderTrans(y.up, x, z); }
  }

  /** A place strictly below `x` lies below one of its entries. */
  lemma {:induction false} UnderSome(y: Pos, x: Pos) returns (i: nat)
    requires Under(y, x) && y != x && y.Valid() && PlacesValid(y)
    ensures Under(y, Child(x, i)) && i < 512
    decreases y
  {
    if y.up == x {
      i := y.slot;
    } else {
      i := UnderSome(y.up, x);
    }
  }

  predicate PlacesValid(y: Pos)
  {
    y.Valid() && (y.Below? ==> PlacesValid(y.up))
  }

  lemma {:induction false} SpacePlaces(m: Mem, d: Dir, y: Pos)
    requires Space(m, d) && y in d
    ensures PlacesValid(y)
    decreases y
  {
    if y.Below? { SpacePlaces(m, d, y.up); }
  }

  // ----- the plan of the copy -----

  predicate UserBig(s0: Sys, dp: Dir, x: Pos, i: nat)
  {
    x in dp && x.Level() == 1 && i < 512 && IsLeaf(Entry(s0.m, dp, x, i), 1) && Entry(s0.m, dp, x, i).u
  }

  /** The places where the child gets a table. */
  predicate NeedTable(s0: Sys, dp: Dir, y: Pos)
  {
    y in dp || (y.Below? && y == Child(y.up, y.slot) && UserBig(s0, dp, y.up, y.slot))
  }

  /** The slots where the child gets a page. */
  predicate NeedPage(s0: Sys, dp: Dir, k: SlotKey)
  {
    k.1 < 512 &&
    if k.0 in dp then k.0.Level() == 0 && Entry(s0.m, dp, k.0, k.1).p && Entry(s0.m, dp, k.0, k.1).u
    else NeedTable(s0, dp, k.0)
  }

  ghost predicate Planned(s0: Sys, dp: Dir, cp: Copy)
  {
    && (forall y :: y in cp.dc ==> NeedTable(s0, dp, y) && (y.Below? ==> y.up in cp.dc))
    && (forall k :: k in cp.pg ==> NeedPage(s0, dp, k) && k.0 in cp.dc)
  }

  ghost predicate Copying(s0: Sys, dp: Dir, s: Sys, cp: Copy)
  {
    Sane(s0) && Space(s0.m, dp) && Owned(s0, dp) && Building(s0, s, cp) && Planned(s0, dp, cp)
  }

  /** Nothing is built below `x`. */
  ghost predicate Clear(cp: Copy, x: Pos)
  {
    (forall y :: y in cp.dc ==> !Under(y, x)) && (forall k :: k in cp.pg ==> !Under(k.0, x))
  }

  /** Nothing is built in or below slot `i` of `x`. */
  ghost predicate Room(cp: Copy, x: Pos, i: nat)
  {
    Clear(cp, Child(x, i)) && (x, i) !in cp.pg
  }

  ghost predicate NewOnly(cp: Copy, cp': Copy, x: Pos, i: nat)
  {
    && (forall y :: y in cp'.dc && y !in cp.dc ==> Under(y, Child(x, i)))
    && (forall k :: k in cp'.pg && k !in cp.pg ==> k == (x, i) || Under(k.0, Child(x, i)))
  }

  ghost predicate NewUnder(cp: Copy, cp': Copy, x: Pos)
  {
    && (forall y :: y in cp'.dc && y !in cp.dc ==> Under(y, x))
    && (forall k :: k in cp'.pg && k !in cp.pg ==> Under(k.0, x))
  }

  /** One entry of the child's table at `x` is filled. */
  ghost predicate EntryStep(s0: Sys, dp: Dir, s: Sys, cp: Copy, s': Sys, cp': Copy, x: Pos, i: nat, full: bool)
    requires 0 <= x.Level() <= 3
  {
    && Copying(s0, dp, s', cp') && x in cp.dc && cp.dc[x] < |s.m| && i < 512 && Later(s, cp, s', cp', cp.dc[x])
    && NewOnly(cp, cp', x, i)
    && s'.m[cp.dc[x]] == s.m[cp.dc[x]][i := s'.m[cp.dc[x]][i]]
    && Done(s0, dp, s', cp', x, i, full)
  }

  lemma RoomKept(cp: Copy, cp': Copy, x: Pos, i: nat, j: nat)
    requires NewOnly(cp, cp', x, i) && Room(cp, x, j) && j != i
    ensures Room(cp', x, j)
  {
    forall y | Under(y, Child(x, i))
      ensures !Under(y, Child(x, j))
    {
      if Under(y, Child(x, j)) { UnderOneChild(y, x, i, j); }
    }
    if Under(x, Child(x, j)) { UnderDepth(x, Child(x, j)); }
    if Under(x, Child(x, i)) { UnderDepth(x, Child(x, i)); }
  }

  /** What is new below slot `i` is not below slot `j`. */
  lemma NewElsewhere(cp: Copy, cp': Copy, x: Pos, i: nat, j: nat, y: Pos, k: nat)
    requires NewOnly(cp, cp', x, i) && j != i && ((y == x && k == j) || Under(y, Child(x, j)))
    ensures NotNew(cp, cp', y, k) && (y != x && y in cp'.dc ==> y in cp.dc)
  {
    assert Under(Child(x, j), Child(x, j)) && Under(Child(y, k), Child(x, j));
    if Under(Child(y, k), Child(x, i)) { UnderOneChild(Child(y, k), x, i, j); }
    if Under(y, Child(x, i)) {
      if y == x { UnderDepth(x, Child(x, i)); } else { UnderOneChild(y, x, i, j); }
    }
    if y == x { assert Depth(Child(x, j)) == Depth(x) + 1; } else { UnderDepth(y, Child(x, j)); }
  }

  lemma DoneKept(s0: Sys, dp: Dir, s: Sys, cp: Copy, s': Sys, cp': Copy, x: Pos, i: nat, here: bool, j: nat,
      full: bool)
    requires 0 <= x.Level() <= 3 && Copying(s0, dp, s, cp) && EntryStep(s0, dp, s, cp, s', cp', x, i, here)
    requires j < 512 && j != i && Done(s0, dp, s, cp, x, j, full)
    ensures Done(s0, dp, s', cp', x, j, full)
  {
    NewElsewhere(cp, cp', x, i, j, x, j);
    OkKept(s0, dp, s, cp, s', cp', x, i, here, x, j, full);
    forall y, k | y in dp && (full || y in cp'.dc) && 0 <= y.Level() <= 3 && Under(y, Child(x, j)) && 0 <= k < 512
      ensures CopyOk(s0, dp, s', cp', y, k, full)
    {
      UnderDepth(y, Child(x, j));
      NewElsewhere(cp, cp', x, i, j, y, k);
      OkKept(s0, dp, s, cp, s', cp', x, i, here, y, k, full);
    }
  }

  lemma OkKept(s0: Sys, dp: Dir, s: Sys, cp: Copy, s': Sys, cp': Copy, x: Pos, i: nat, here: bool, y: Pos, k: nat,
      full: bool)
    requires 0 <= x.Level() <= 3 && 0 <= y.Level() <= 3 && k < 512
    requires Copying(s0, dp, s, cp) && EntryStep(s0, dp, s, cp, s', cp', x, i, here) &&
             CopyOk(s0, dp, s, cp, y, k, full)
    requires (y == x && k != i) || (y != x && Depth(y) > Depth(x))
    requires NotNew(cp, cp', y, k)
    ensures CopyOk(s0, dp, s', cp', y, k, full)
  {
    assert Depth(Child(y, k)) == 1 + Depth(y);
    assert OneFrameEach(cp.dc);
    hide Space, Owned, Planned, NewOnly, Done, CopyOk;
    CopyKept(s0, dp, s, cp, s', cp', cp.dc[x], y, k, full);
  }

  // ----- filling one entry -----

  lemma {:induction false} AncestorIn(m: Mem, d: Dir, y: Pos, z: Pos)
    requires Space(m, d) && y in d && Under(y, z)
    ensures z in d
    decreases y
  {
    if y != z { AncestorIn(m, d, y.up, z); }
  }

  /** Below an entry that is no link there is nothing to copy. */
  lemma NoneBelow(m: Mem, d: Dir, x: Pos, i: nat)
    requires Space(m, d) && x in d && i < 512 && !IsLink(Entry(m, d, x, i), x.Level())
    ensures forall y :: y in d ==> !Under(y, Child(x, i))
  {
    assert EntryOk(m, d, x, i);
    forall y | y in d && Under(y, Child(x, i))
      ensures false
    {
      AncestorIn(m, d, y, Child(x, i));
    }
  }

  /** What precedes the write of entry (x, i): the copy has gone on from `s` to `s1` below it. */
  ghost predicate Before(s0: Sys, dp: Dir, s: Sys, cp: Copy, s1: Sys, cp1: Copy, x: Pos, i: nat)
  {
    && x in dp && 0 <= x.Level() <= 3 && i < 512 && x in cp.dc && Copying(s0, dp, s, cp)
    && Copying(s0, dp, s1, cp1) && Later(s, cp, s1, cp1, 0) && NewOnly(cp, cp1, x, i)
  }

  /** Everything that entry (x, i) of the child will refer to is in place. */
  ghost predicate Ready(s0: Sys, dp: Dir, s1: Sys, cp1: Copy, x: Pos, i: nat, e: Pte, full: bool)
    requires 0 <= x.Level() <= 3
  {
    && EntryCopied(s0, s1, cp1, x, i, Entry(s0.m, dp, x, i), e, full)
    && FilledUnder(s0, dp, s1, cp1, Child(x, i), full)
  }

  lemma LaterTable(s: Sys, cp: Copy, s1: Sys, cp1: Copy, x: Pos)
    requires Later(s, cp, s1, cp1, 0) && x in cp.dc && 0 < cp.dc[x] < |s.m|
    ensures |s1.m| == |s.m| && x in cp1.dc && cp1.dc[x] == cp.dc[x] && s1.m[cp.dc[x]] == s.m[cp.dc[x]]
  {
  }

  lemma LaterWrite(s: Sys, cp: Copy, s1: Sys, cp1: Copy, s2: Sys, t: nat)
    requires Later(s, cp, s1, cp1, 0) && Later(s1, cp1, s2, cp1, t) && Outside(cp.dc, 0)
    ensures Later(s, cp, s2, cp1, t)
  {
  }

  lemma WriteStep(s0: Sys, dp: Dir, s: Sys, cp: Copy, s1: Sys, cp1: Copy, x: Pos, i: nat, e: Pte, full: bool)
    requires Before(s0, dp, s, cp, s1, cp1, x, i) && Ready(s0, dp, s1, cp1, x, i, e, full)
    ensures cp.dc[x] < |s1.m|
    ensures EntryStep(s0, dp, s, cp, s1.WithMem(Poke(s1.m, cp.dc[x], i, e)), cp1, x, i, full)
  {
    hide Building, Space, Owned, Sane, Later, Done, Ready, Planned, NewOnly;
    CopyingBounds(s0, dp, s, cp, x);
    LaterTable(s, cp, s1, cp1, x);
    BuildWrite(s0, s1, cp1, x, i, e);
    WriteDone(s0, dp, s1, cp1, x, i, e, full);
    LaterWrite(s, cp, s1, cp1, s1.WithMem(Poke(s1.m, cp.dc[x], i, e)), cp.dc[x]);
  }

  lemma TableIn(s0: Sys, s: Sys, cp: Copy, c: Pos)
    requires Building(s0, s, cp) && c in cp.dc
    ensures cp.dc[c] < |s.m|
  {
    assert NewFrame(s0, s, cp.dc[c]);
  }

  lemma WriteOk(s0: Sys, dp: Dir, s1: Sys, cp1: Copy, x: Pos, i: nat, e: Pte, full: bool)
    requires Building(s0, s1, cp1) && x in cp1.dc && cp1.dc[x] < |s1.m| && i < 512 && 0 <= x.Level() <= 3
    requires EntryCopied(s0, s1, cp1, x, i, Entry(s0.m, dp, x, i), e, full)
    ensures CopyOk(s0, dp, s1.WithMem(Poke(s1.m, cp1.dc[x], i, e)), cp1, x, i, full)
  {
    var t, s2 := cp1.dc[x], s1.WithMem(Poke(s1.m, cp1.dc[x], i, e));
    var pe := Entry(s0.m, dp, x, i);
    BuildWrite(s0, s1, cp1, x, i, e);
    BuildOne(s0, s1, cp1);
    hide Building, Later;
    assert Entry(s2.m, cp1.dc, x, i) == e;
    if IsLeaf(pe, x.Level()) && pe.u && x.Level() == 1 && Child(x, i) in cp1.dc {
      TableIn(s0, s1, cp1, Child(x, i));
      hide BigCopied;
      BigKept(s0, s1, cp1, s2, cp1, t, Child(x, i), pe, 512, full);
    }
  }

  lemma WriteDone(s0: Sys, dp: Dir, s1: Sys, cp1: Copy, x: Pos, i: nat, e: Pte, full: bool)
    requires Copying(s0, dp, s1, cp1) && x in cp1.dc && cp1.dc[x] < |s1.m| && i < 512 && 0 <= x.Level() <= 3
    requires Ready(s0, dp, s1, cp1, x, i, e, full)
    ensures Done(s0, dp, s1.WithMem(Poke(s1.m, cp1.dc[x], i, e)), cp1, x, i, full)
  {
    var t, s2 := cp1.dc[x], s1.WithMem(Poke(s1.m, cp1.dc[x], i, e));
    BuildWrite(s0, s1, cp1, x, i, e);
    BuildOne(s0, s1, cp1);
    WriteOk(s0, dp, s1, cp1, x, i, e, full);
    hide Space, Owned, Building, Planned, EntryCopied, Later;
    forall y, k | y in dp && (full || y in cp1.dc) && 0 <= y.Level() <= 3 && Under(y, Child(x, i)) && 0 <= k < 512
      ensures CopyOk(s0, dp, s2, cp1, y, k, full)
    {
      UnderDepth(y, Child(x, i));
      assert Depth(Child(y, k)) == 1 + Depth(y);
      assert CopyOk(s0, dp, s1, cp1, y, k, full);
      TableIn(s0, s1, cp1, y);
      CopyKept(s0, dp, s1, cp1, s2, cp1, t, y, k, full);
    }
  }

  // ----- the branches of copy_pt_level -----

  lemma BeforeNothing(s0: Sys, dp: Dir, s: Sys, cp: Copy, x: Pos, i: nat)
    requires x in dp && 0 <= x.Level() <= 3 && i < 512 && x in cp.dc && Copying(s0, dp, s, cp)
    ensures Before(s0, dp, s, cp, s, cp, x, i)
  {
  }

  /** Absent entries and kernel leaves are copied as they are. */
  lemma PlainReady(s0: Sys, dp: Dir, s: Sys, cp: Copy, x: Pos, i: nat)
    requires x in dp && 0 <= x.Level() <= 3 && i < 512 && x in cp.dc && Copying(s0, dp, s, cp)
    requires var pe := Entry(s0.m, dp, x, i); !pe.p || (IsLeaf(pe, x.Level()) && (!pe.u || x.Level() == 2))
    ensures var pe := Entry(s0.m, dp, x, i); Ready(s0, dp, s, cp, x, i, if pe.p then pe else ZERO, true)
  {
    NoneBelow(s0.m, dp, x, i);
  }

  /** A user leaf for which there is no frame is left out. */
  lemma LeftOut(s0: Sys, dp: Dir, s: Sys, cp: Copy, x: Pos, i: nat)
    requires x in dp && 0 <= x.Level() <= 1 && i < 512 && x in cp.dc && Copying(s0, dp, s, cp) && Room(cp, x, i)
    requires var pe := Entry(s0.m, dp, x, i); IsLeaf(pe, x.Level()) && pe.u
    ensures Ready(s0, dp, s, cp, x, i, ZERO, false)
  {
    NoneBelow(s0.m, dp, x, i);
    assert Under(Child(x, i), Child(x, i));
  }

  lemma BuildFresh(s0: Sys, s: Sys, cp: Copy, f: nat)
    requires Building(s0, s, cp) && Fresh(s, f)
    ensures f < |s.data| && |s.m| == |s.data| == |s.used| == |s.refs|
  {
  }

  lemma BuildOne(s0: Sys, s: Sys, cp: Copy)
    requires Building(s0, s, cp)
    ensures OneFrameEach(cp.dc)
  {
  }

  lemma LaterBound(s: Sys, cp: Copy, s': Sys, cp': Copy, t: nat)
    requires Later(s, cp, s', cp', t)
    ensures |s'.m| == |s.m| && |s'.data| == |s.data| && forall y :: y in cp.dc ==> y in cp'.dc && cp'.dc[y] == cp.dc[y]
  {
  }

  /** A 4 KiB user leaf gets a page of its own. */
  lemma PageReady(s0: Sys, dp: Dir, s: Sys, cp: Copy, x: Pos, i: nat, f: nat, b: Bytes)
    requires x in dp && x.Level() == 0 && i < 512 && x in cp.dc && Copying(s0, dp, s, cp) && Room(cp, x, i) &&
             Fresh(s, f)
    requires var pe := Entry(s0.m, dp, x, i); pe.p && pe.u && (InUse(s0, pe.frame) ==> b == s0.data[pe.frame])
    ensures Before(s0, dp, s, cp, TakenWith(s, f, b), cp.AddPage((x, i), f), x, i)
    ensures Ready(s0, dp, TakenWith(s, f, b), cp.AddPage((x, i), f), x, i, CopyLeaf(Entry(s0.m, dp, x, i), f), true)
  {
    hide Building, Space, Owned, Sane, Later;
    NoneBelow(s0.m, dp, x, i);
    BuildPage(s0, s, cp, (x, i), f, b);
    BuildFresh(s0, s, cp, f);
    assert Planned(s0, dp, cp.AddPage((x, i), f));
  }

  // ----- a user 2 MiB leaf -----

  ghost predicate BigFrame(s0: Sys, dp: Dir, s: Sys, cp: Copy, s1: Sys, cp1: Copy, x: Pos, i: nat, n: nat)
  {
    && Before(s0, dp, s, cp, s1, cp1, x, i) && UserBig(s0, dp, x, i) && Child(x, i) in cp1.dc && Child(x, i) !in cp.dc
    && (forall j: nat :: n <= j ==> (Child(x, i), j) !in cp1.pg)
  }

  /** `n` of the 512 pages below the user 2 MiB leaf (x, i) are copied. */
  ghost predicate BigStep(s0: Sys, dp: Dir, s: Sys, cp: Copy, s1: Sys, cp1: Copy, x: Pos, i: nat, n: nat, full: bool)
  {
    && BigFrame(s0, dp, s, cp, s1, cp1, x, i, n)
    && BigCopied(s0, s1, cp1, Child(x, i), Entry(s0.m, dp, x, i), n, full)
  }

  lemma BigStart(s0: Sys, dp: Dir, s: Sys, cp: Copy, x: Pos, i: nat, f: nat)
    requires UserBig(s0, dp, x, i) && x in cp.dc && Copying(s0, dp, s, cp) && Room(cp, x, i) && Fresh(s, f)
    ensures BigStep(s0, dp, s, cp, Taken(s, f, EmptyTable()), cp.AddTable(Child(x, i), f), x, i, 0, true)
  {
    hide Building, Space, Owned, Sane, Later;
    BuildFresh(s0, s, cp, f);
    BuildTable(s0, s, cp, Child(x, i), f);
    LaterBound(s, cp, Taken(s, f, EmptyTable()), cp.AddTable(Child(x, i), f), 0);
    assert Planned(s0, dp, cp.AddTable(Child(x, i), f));
  }

  lemma LaterNew(s: Sys, cp: Copy, s2: Sys, cp2: Copy, c: Pos, n: nat, e: Pte)
    requires Later(s, cp, s2, cp2, 0) && OneFrameEach(cp2.dc) && c in cp2.dc && c !in cp.dc && cp2.dc[c] < |s2.m| &&
             n < 512
    ensures Later(s, cp, s2.WithMem(Poke(s2.m, cp2.dc[c], n, e)), cp2, 0)
  {
  }

  /** Writing slot `n` of the new table, with or without a page taken for it. */
  lemma BigWrite(s0: Sys, dp: Dir, s: Sys, cp: Copy, s1: Sys, cp1: Copy, s2: Sys, cp2: Copy, x: Pos, i: nat, n: nat,
      e: Pte)
    requires BigFrame(s0, dp, s, cp, s1, cp1, x, i, n) && n < 512 && Copying(s0, dp, s2, cp2)
    requires Later(s1, cp1, s2, cp2, 0) && cp2.dc == cp1.dc &&
             forall k :: k in cp2.pg && k !in cp1.pg ==> k == (Child(x, i), n)
    ensures cp1.dc[Child(x, i)] < |s2.m|
    ensures BigFrame(s0, dp, s, cp, s2.WithMem(Poke(s2.m, cp1.dc[Child(x, i)], n, e)), cp2, x, i, n + 1)
  {
    hide Building, Space, Owned, Sane, Later, OneFrameEach;
    BuildOne(s0, s2, cp2);
    BuildWrite(s0, s2, cp2, Child(x, i), n, e);
    LaterTrans(s, cp, s1, cp1, s2, cp2, 0);
    LaterNew(s, cp, s2, cp2, Child(x, i), n, e);
  }

  /** The page for slot `n` is copied and its leaf written. */
  lemma BigNext(s0: Sys, dp: Dir, s: Sys, cp: Copy, s1: Sys, cp1: Copy, x: Pos, i: nat, n: nat, f: nat, b: Bytes,
      full: bool)
    requires BigStep(s0, dp, s, cp, s1, cp1, x, i, n, full) && n < 512 && Fresh(s1, f)
    requires var pe := Entry(s0.m, dp, x, i); InUse(s0, pe.frame + n) ==> b == s0.data[pe.frame + n]
    ensures f < |s1.data| && cp1.dc[Child(x, i)] < |s1.m|
    ensures var e := SplitLink(Entry(s0.m, dp, x, i), f);
            BigStep(s0, dp, s, cp, TakenWith(s1, f, b).WithMem(Poke(s1.m, cp1.dc[Child(x, i)], n, e)),
                    cp1.AddPage((Child(x, i), n), f), x, i, n + 1, full)
  {
    hide Building, Space, Owned, Sane, Later;
    var c, pe := Child(x, i), Entry(s0.m, dp, x, i);
    var e, cp2 := SplitLink(pe, f), cp1.AddPage((c, n), f);
    BuildFresh(s0, s1, cp1, f);
    BuildPage(s0, s1, cp1, (c, n), f, b);
    var s2 := TakenWith(s1, f, b);
    assert Planned(s0, dp, cp2) by { BigPlanned(s0, dp, cp1, x, i, n, f); }
    BigWrite(s0, dp, s, cp, s1, cp1, s2, cp2, x, i, n, e);
    BigMore(s0, s1, cp1, c, pe, n, f, b, full);
    hide BigCopied;
  }

  lemma BigPlanned(s0: Sys, dp: Dir, cp: Copy, x: Pos, i: nat, n: nat, f: nat)
    requires Space(s0.m, dp) && UserBig(s0, dp, x, i) && Planned(s0, dp, cp) && n < 512 && Child(x, i) in cp.dc
    ensures Planned(s0, dp, cp.AddPage((Child(x, i), n), f))
  {
    assert EntryOk(s0.m, dp, x, i);
  }

  lemma PagesUsed(s0: Sys, s: Sys, cp: Copy)
    requires Building(s0, s, cp)
    ensures forall k :: k in cp.pg ==> cp.pg[k] < |s.used| && s.used[cp.pg[k]]
  {
    forall k | k in cp.pg
      ensures cp.pg[k] < |s.used| && s.used[cp.pg[k]]
    {
      assert NewFrame(s0, s, cp.pg[k]);
    }
  }

  /** The state after the page for slot `n` was copied and its leaf written. */
  function BigPut(s: Sys, cp: Copy, c: Pos, pe: Pte, n: nat, f: nat, b: Bytes): Sys
    requires c in cp.dc && cp.dc[c] < |s.m| && n < 512 && f < |s.data| && f < |s.used| && f < |s.refs|
  {
    TakenWith(s, f, b).WithMem(Poke(s.m, cp.dc[c], n, SplitLink(pe, f)))
  }

  lemma BigOld(s0: Sys, s1: Sys, cp1: Copy, c: Pos, pe: Pte, n: nat, f: nat, b: Bytes, full: bool, j: nat)
    requires c in cp1.dc && cp1.dc[c] < |s1.m| && j < n < 512 && f < |s1.data| && f < |s1.used| && f < |s1.refs|
    requires BigPage(s0, s1, cp1, c, pe, j, full) && ((c, j) in cp1.pg ==> cp1.pg[(c, j)] != f)
    ensures BigPage(s0, BigPut(s1, cp1, c, pe, n, f, b), cp1.AddPage((c, n), f), c, pe, j, full)
  {
    var s3, cp2 := BigPut(s1, cp1, c, pe, n, f, b), cp1.AddPage((c, n), f);
    assert Entry(s3.m, cp2.dc, c, j) == Entry(s1.m, cp1.dc, c, j);
    hide Entry;
  }

  lemma BigNew(s0: Sys, s1: Sys, cp1: Copy, c: Pos, pe: Pte, n: nat, f: nat, b: Bytes, full: bool)
    requires c in cp1.dc && cp1.dc[c] < |s1.m| && n < 512 && f < |s1.data| && f < |s1.used| && f < |s1.refs|
    requires InUse(s0, pe.frame + n) ==> b == s0.data[pe.frame + n]
    ensures BigPage(s0, BigPut(s1, cp1, c, pe, n, f, b), cp1.AddPage((c, n), f), c, pe, n, full)
  {
  }

  lemma BigMore(s0: Sys, s1: Sys, cp1: Copy, c: Pos, pe: Pte, n: nat, f: nat, b: Bytes, full: bool)
    requires BigCopied(s0, s1, cp1, c, pe, n, full) && Building(s0, s1, cp1) && n < 512 && Fresh(s1, f)
    requires f < |s1.data| && (InUse(s0, pe.frame + n) ==> b == s0.data[pe.frame + n]) && cp1.dc[c] < |s1.m|
    ensures BigCopied(s0, BigPut(s1, cp1, c, pe, n, f, b), cp1.AddPage((c, n), f), c, pe, n + 1, full)
  {
    PagesUsed(s0, s1, cp1);
    hide Building, BigPage, BigPut;
    var s3, cp2 := BigPut(s1, cp1, c, pe, n, f, b), cp1.AddPage((c, n), f);
    forall j: nat | j < n + 1
      ensures BigPage(s0, s3, cp2, c, pe, j, full)
    {
      if j < n {
        assert BigPage(s0, s1, cp1, c, pe, j, full);
        BigOld(s0, s1, cp1, c, pe, n, f, b, full, j);
      } else {
        BigNew(s0, s1, cp1, c, pe, n, f, b, full);
      }
    }
  }

  lemma BigZero(s0: Sys, s: Sys, cp: Copy, c: Pos, pe: Pte, n: nat, full: bool)
    requires BigCopied(s0, s, cp, c, pe, n, full) && cp.dc[c] < |s.m| && n < 512 && (c, n) !in cp.pg
    ensures BigCopied(s0, s.WithMem(Poke(s.m, cp.dc[c], n, ZERO)), cp, c, pe, n + 1, false)
  {
    var s2 := s.WithMem(Poke(s.m, cp.dc[c], n, ZERO));
    forall j: nat | j < n + 1
      ensures BigPage(s0, s2, cp, c, pe, j, false)
    {
      if j < n { assert BigPage(s0, s, cp, c, pe, j, full); }
    }
  }

  /** There is no frame for slot `n`. */
  lemma BigSkip(s0: Sys, dp: Dir, s: Sys, cp: Copy, s1: Sys, cp1: Copy, x: Pos, i: nat, n: nat, full: bool)
    requires BigStep(s0, dp, s, cp, s1, cp1, x, i, n, full) && n < 512
    ensures cp1.dc[Child(x, i)] < |s1.m|
    ensures BigStep(s0, dp, s, cp, s1.WithMem(Poke(s1.m, cp1.dc[Child(x, i)], n, ZERO)), cp1, x, i, n + 1, false)
  {
    hide Copying, Later, NewOnly, BigCopied;
    CopyingBounds(s0, dp, s1, cp1, Child(x, i));
    LaterSame(s1, cp1);
    BigWrite(s0, dp, s, cp, s1, cp1, s1, cp1, x, i, n, ZERO);
    BigZero(s0, s1, cp1, Child(x, i), Entry(s0.m, dp, x, i), n, full);
  }

  lemma LaterSame(s: Sys, cp: Copy)
    ensures Later(s, cp, s, cp, 0)
  {
  }

  lemma BigReady(s0: Sys, dp: Dir, s: Sys, cp: Copy, s1: Sys, cp1: Copy, x: Pos, i: nat, full: bool)
    requires BigStep(s0, dp, s, cp, s1, cp1, x, i, 512, full)
    ensures Ready(s0, dp, s1, cp1, x, i, SplitLink(Entry(s0.m, dp, x, i), cp1.dc[Child(x, i)]), full)
  {
    hide Building, Owned, Sane, Later, BigCopied;
    NoneBelow(s0.m, dp, x, i);
  }

  // ----- one table -----

  /** The table at `x` and everything below it is copied. */
  ghost predicate LevelDone(s0: Sys, dp: Dir, s: Sys, cp: Copy, x: Pos, full: bool)
  {
    x in cp.dc && FilledUnder(s0, dp, s, cp, x, full)
  }

  /** From (s, cp) to (s1, cp1) only tables and pages at or below `x` were built. */
  ghost predicate LevelStep(s0: Sys, dp: Dir, s: Sys, cp: Copy, s1: Sys, cp1: Copy, x: Pos)
  {
    Copying(s0, dp, s1, cp1) && Later(s, cp, s1, cp1, 0) && NewUnder(cp, cp1, x)
  }

  /** A link is written once the table below it is done. */
  lemma LinkReady(s0: Sys, dp: Dir, s: Sys, cp: Copy, s1: Sys, cp1: Copy, x: Pos, i: nat, e: Pte, full: bool)
    requires x in dp && 0 <= x.Level() <= 3 && i < 512 && x in cp.dc && Copying(s0, dp, s, cp)
    requires IsLink(Entry(s0.m, dp, x, i), x.Level()) && LevelStep(s0, dp, s, cp, s1, cp1, Child(x, i))
    requires LevelDone(s0, dp, s1, cp1, Child(x, i), full) &&
             LinkCopied(x, Entry(s0.m, dp, x, i), e, cp1.dc[Child(x, i)])
    ensures Before(s0, dp, s, cp, s1, cp1, x, i) && Ready(s0, dp, s1, cp1, x, i, e, full)
  {
    hide Building, Space, Owned, Sane, Later, CopyOk;
  }

  /** Without a frame for the table below, the link is left out, or in the PML4 shared. */
  lemma LinkLeftOut(s0: Sys, dp: Dir, s: Sys, cp: Copy, x: Pos, i: nat)
    requires x in dp && 0 <= x.Level() <= 3 && i < 512 && x in cp.dc && Copying(s0, dp, s, cp) && Room(cp, x, i)
    requires IsLink(Entry(s0.m, dp, x, i), x.Level())
    ensures Ready(s0, dp, s, cp, x, i, if x.Top? then Entry(s0.m, dp, x, i) else ZERO, false)
  {
    assert Under(Child(x, i), Child(x, i));
  }

  ghost predicate LevelInv(s0: Sys, dp: Dir, s: Sys, cp: Copy, s1: Sys, cp1: Copy, x: Pos, n: nat, full: bool)
    requires 0 <= x.Level() <= 3
  {
    && LevelStep(s0, dp, s, cp, s1, cp1, x) && x in dp && x in cp1.dc && x !in cp.dc
    && (forall i :: n <= i < 512 ==> Room(cp1, x, i))
    && (forall i :: 0 <= i < n ==> Done(s0, dp, s1, cp1, x, i, full))
  }

  lemma StartRoom(cp: Copy, x: Pos, f: nat, i: nat)
    requires Clear(cp, x)
    ensures Room(cp.AddTable(x, f), x, i)
  {
    assert Under(x, x);
    forall y | Under(y, Child(x, i))
      ensures Under(y, x) && y != x
    {
      UnderTrans(y, Child(x, i), x);
      UnderDepth(y, Child(x, i));
    }
  }

  lemma LevelStart(s0: Sys, dp: Dir, s: Sys, cp: Copy, x: Pos, f: nat)
    requires Copying(s0, dp, s, cp) && x in dp && 0 <= x.Level() <= 3 && Clear(cp, x) && Fresh(s, f) &&
             (x.Below? ==> x.up in cp.dc)
    ensures LevelInv(s0, dp, s, cp, Taken(s, f, EmptyTable()), cp.AddTable(x, f), x, 0, true)
  {
    hide Building, Space, Owned, Sane, Later, Room;
    assert Under(x, x);
    assert x !in cp.dc;
    hide Clear, Under;
    BuildTable(s0, s, cp, x, f);
    forall i: nat
      ensures Room(cp.AddTable(x, f), x, i)
    {
      StartRoom(cp, x, f, i);
    }
  }

  lemma LaterSkip(s: Sys, cp: Copy, s1: Sys, cp1: Copy, s2: Sys, cp2: Copy, x: Pos)
    requires Later(s, cp, s1, cp1, 0) && OneFrameEach(cp1.dc) && x in cp1.dc && x !in cp.dc &&
             Later(s1, cp1, s2, cp2, cp1.dc[x])
    ensures Later(s, cp, s2, cp2, 0)
  {
  }

  lemma LevelNext(s0: Sys, dp: Dir, s: Sys, cp: Copy, s1: Sys, cp1: Copy, s2: Sys, cp2: Copy, x: Pos, n: nat,
      full: bool, here: bool)
    requires 0 <= x.Level() <= 3 && n < 512 && LevelInv(s0, dp, s, cp, s1, cp1, x, n, full)
    requires EntryStep(s0, dp, s1, cp1, s2, cp2, x, n, here)
    ensures LevelInv(s0, dp, s, cp, s2, cp2, x, n + 1, full && here)
  {
    hide Building, Space, Owned, Sane, Later, Done, OneFrameEach, Room, Planned;
    BuildOne(s0, s1, cp1);
    LaterSkip(s, cp, s1, cp1, s2, cp2, x);
    LaterBound(s1, cp1, s2, cp2, cp1.dc[x]);
    forall i | n + 1 <= i < 512
      ensures Room(cp2, x, i)
    {
      RoomKept(cp1, cp2, x, n, i);
    }
    forall y | Under(y, Child(x, n))
      ensures Under(y, x)
    {
      UnderTrans(y, Child(x, n), x);
    }
    var both := full && here;
    forall i | 0 <= i < n
      ensures Done(s0, dp, s2, cp2, x, i, both)
    {
      DoneKept(s0, dp, s1, cp1, s2, cp2, x, n, here, i, full);
      DoneWeak(s0, dp, s2, cp2, x, i, full, both);
    }
    DoneWeak(s0, dp, s2, cp2, x, n, here, both);
  }

  lemma LevelEnd(s0: Sys, dp: Dir, s: Sys, cp: Copy, s1: Sys, cp1: Copy, x: Pos, full: bool)
    requires 0 <= x.Level() <= 3 && LevelInv(s0, dp, s, cp, s1, cp1, x, 512, full)
    ensures LevelDone(s0, dp, s1, cp1, x, full)
  {
    forall y, j | y in dp && (full || y in cp1.dc) && 0 <= y.Level() <= 3 && Under(y, x) && 0 <= j < 512
      ensures CopyOk(s0, dp, s1, cp1, y, j, full)
    {
      if y == x {
        assert Done(s0, dp, s1, cp1, x, j, full);
      } else {
        SpacePlaces(s0.m, dp, y);
        var i := UnderSome(y, x);
        assert Done(s0, dp, s1, cp1, x, i, full);
      }
    }
  }

  lemma CopyingBounds(s0: Sys, dp: Dir, s: Sys, cp: Copy, x: Pos)
    requires Copying(s0, dp, s, cp) && x in cp.dc
    ensures Outside(cp.dc, 0) && 0 < cp.dc[x] < |s.m| &&
            |s.m| == |s.data| == |s.used| == |s.refs| == |s0.m| == |s0.data| == |s0.used|
  {
    assert NewFrame(s0, s, cp.dc[x]);
  }

  lemma KeptContents(s0: Sys, dp: Dir, s: Sys, cp: Copy, f: nat)
    requires Copying(s0, dp, s, cp) && InUse(s0, f)
    ensures InUse(s, f) && s.data[f] == s0.data[f]
  {
    assert FrameKept(s0, s, f);
  }

  lemma BigFacts(s0: Sys, dp: Dir, s: Sys, cp: Copy, s1: Sys, cp1: Copy, x: Pos, i: nat, n: nat, full: bool)
    requires BigStep(s0, dp, s, cp, s1, cp1, x, i, n, full)
    ensures Copying(s0, dp, s1, cp1) && Before(s0, dp, s, cp, s1, cp1, x, i)
    ensures |s1.m| == |s.m| && Child(x, i) in cp1.dc && cp1.dc[Child(x, i)] < |s1.m|
    ensures Later(s1, cp1, s1, cp1, 0)
  {
    CopyingBounds(s0, dp, s1, cp1, Child(x, i));
  }

  /** The parent's tables are read as they were. */
  lemma ParentKept(s0: Sys, dp: Dir, s: Sys, cp: Copy, x: Pos, i: nat)
    requires Copying(s0, dp, s, cp) && x in dp && i < 512
    ensures dp[x] < |s.m| && s.m[dp[x]][i] == Entry(s0.m, dp, x, i) && 0 <= x.Level() <= 3
  {
    assert FrameKept(s0, s, dp[x]);
  }

  lemma LinkBelow(s0: Sys, dp: Dir, s: Sys, cp: Copy, x: Pos, i: nat)
    requires Copying(s0, dp, s, cp) && x in dp && i < 512 && IsLink(Entry(s0.m, dp, x, i), x.Level()) && Room(cp, x, i)
    ensures Child(x, i) in dp && dp[Child(x, i)] == Entry(s0.m, dp, x, i).frame && Clear(cp, Child(x, i))
    ensures x.Level() == 3 ==> x.Top?
  {
    assert EntryOk(s0.m, dp, x, i);
  }

  lemma LevelNothing(s0: Sys, dp: Dir, s: Sys, cp: Copy, x: Pos)
    requires Copying(s0, dp, s, cp)
    ensures LevelStep(s0, dp, s, cp, s, cp, x)
  {
  }

  lemma LevelFacts(s0: Sys, dp: Dir, s: Sys, cp: Copy, s1: Sys, cp1: Copy, x: Pos, n: nat, full: bool)
    requires 0 <= x.Level() <= 3 && LevelInv(s0, dp, s, cp, s1, cp1, x, n, full)
    ensures Copying(s0, dp, s1, cp1) && LevelStep(s0, dp, s, cp, s1, cp1, x) && x in cp1.dc &&
            (n < 512 ==> Room(cp1, x, n))
  {
  }

  lemma EntryFacts(s0: Sys, dp: Dir, s: Sys, cp: Copy, s': Sys, cp': Copy, x: Pos, i: nat, full: bool)
    requires 0 <= x.Level() <= 3 && EntryStep(s0, dp, s, cp, s', cp', x, i, full)
    ensures x in cp'.dc && cp'.dc[x] == cp.dc[x]
  {
  }

  /** The boot template never holds user pages. */
  ghost predicate KernelOnly(s0: Sys, dp: Dir)
  {
    forall x, i :: x in dp ==> !Entry(s0.m, dp, x, i).u
  }
}
