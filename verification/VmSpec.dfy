/** Page-table operations as relations between states of memory and allocator, and what they keep
    (kernel/arch/x86_64/paging.c). */
module VmSpec {
  import opened Tiny
  import opened PageTables
  import opened PhysMem
  import opened Pmm

  /** All of memory management as a value. */
  datatype Sys = Sys(m: Mem, data: seq<Bytes>, used: seq<bool>, refs: seq<int>)
  {
    function WithMem(m': Mem): Sys
    {
      Sys(m', data, used, refs)
    }

    /** pmm_free_page. */
    function Free(f: nat): Sys
    {
      Sys(m, data, Frames(used, refs).Free(f).used, refs)
    }

    /** pmm_page_deref. */
    function Deref(f: nat): Sys
      requires Frames(used, refs).WellFormed()
    {
      var g := Frames(used, refs).Deref(f);
      Sys(m, data, g.used, g.refs)
    }

    /** The frame `f` handed out, with one owner. */
    function Take(f: nat): Sys
      requires f < |used| && f < |refs|
    {
      Sys(m, data, used[f := true], refs[f := 1])
    }
  }

  /** Frame 0 is reserved for good: the allocator answers 0 for "none left". */
  ghost predicate Sane(s: Sys)
  {
    && |s.m| == |s.data| == |s.used| == |s.refs| > 0
    && s.used[0] && s.refs[0] == 0
    && forall f :: 0 <= f < |s.refs| ==> 0 <= s.refs[f] <= MAX_REFS
  }

  /** Every table of the space was handed out by the allocator. */
  ghost predicate Owned(s: Sys, d: Dir)
  {
    forall x :: x in d ==> 0 < d[x] < |s.used| && s.used[d[x]]
  }

  /** The table entry that leads to a new table: address, P, W and, for a user mapping, U. */
  function LinkTo(f: nat, user: bool): Pte
  {
    ZERO.(p := true, w := true, u := user, frame := f)
  }

  /** Entry `j` of the table that replaces a 2 MiB leaf. The mask 0x80000000000001EF, less PS,
      keeps P, W, U, PWT, A, D, G and NX; it drops PCD and the bits above. */
  function SplitLeaf(big: Pte, j: nat): Pte
  {
    big.(p := true, pcd := false, ps := false, avl := 0, hi := 0, frame := big.frame + j)
  }

  function SplitTable(big: Pte): Table
  {
    seq(512, j requires 0 <= j < 512 => SplitLeaf(big, j))
  }

  /** The leaf paging_map_4k writes: the address, the low flag bits and NX, and P. */
  function MapLeaf(f: nat, flags: Pte): Pte
  {
    flags.(p := true, hi := 0, frame := f)
  }

  /** The entry has the cache bits, accessed, dirty, global and no-execute bits asked for. */
  predicate Keeps(e: Pte, flags: Pte)
  {
    && e.p && e.pwt == flags.pwt && e.pcd == flags.pcd && e.a == flags.a && e.d == flags.d && e.g == flags.g
    && e.nx == flags.nx
  }

  /** From `s` to `s'` the space `d` may only gain tables, in frames that were free, and nothing
      outside its own tables changes. */
  ghost predicate Grown(s: Sys, d: Dir, s': Sys, d': Dir)
  {
    && |s'.m| == |s.m| && s'.data == s.data && |s'.used| == |s.used| && |s'.refs| == |s.refs|
    && (forall x :: x in d ==> x in d' && d'[x] == d[x])
    && (forall x :: x in d' && x !in d ==> d'[x] < |s.used| && !s.used[d'[x]])
    && (forall f :: 0 <= f < |s.m| && Outside(d', f) ==> s'.m[f] == s.m[f])
    && (forall f :: 0 <= f < |s.used| && !New(d, d', f) ==> s'.used[f] == s.used[f])
    && (forall f :: 0 <= f < |s.refs| && !New(d, d', f) ==> s'.refs[f] == s.refs[f])
  }

  /** Frame `f` holds a table of `d'` that `d` does not have. */
  ghost predicate New(d: Dir, d': Dir, f: nat)
  {
    exists x :: x in d' && x !in d && d'[x] == f
  }

  lemma SteppedRefl(s: Sys, d: Dir)
    requires Space(s.m, d) && Owned(s, d)
    ensures Stepped(s, d, s, d)
  {
  }

  lemma GrownTrans(s: Sys, d: Dir, s1: Sys, d1: Dir, s2: Sys, d2: Dir)
    requires Grown(s, d, s1, d1) && Grown(s1, d1, s2, d2) && Sane(s) && Sane(s1)
    requires Space(s2.m, d2) && Owned(s1, d1)
    ensures Grown(s, d, s2, d2)
  {
    forall x | x in d2 && x !in d
      ensures d2[x] < |s.used| && !s.used[d2[x]]
    {
      if x !in d1 {
        assert !New(d, d1, d2[x]);
      }
    }
    forall f | 0 <= f < |s.m| && Outside(d2, f)
      ensures s2.m[f] == s.m[f]
    {
      assert Outside(d1, f);
    }
    forall f | 0 <= f < |s.used| && !New(d, d2, f)
      ensures s2.used[f] == s.used[f] && s2.refs[f] == s.refs[f]
    {
      assert !New(d, d1, f) && !New(d1, d2, f);
    }
  }

  /** The space is kept, it may only have gained tables, and no page changed its translation. */
  ghost predicate Stepped(s: Sys, d: Dir, s': Sys, d': Dir)
  {
    Space(s'.m, d') && Owned(s', d') && Grown(s, d, s', d') && SameViews(s.m, d, s'.m, d')
  }

  ghost predicate Fresh(s: Sys, f: nat)
  {
    f < |s.used| && f < |s.m| && f < |s.refs| && !s.used[f]
  }

  /** A free frame that was written with `tab` and marked used. */
  function Taken(s: Sys, f: nat, tab: Table): Sys
    requires f < |s.m| && f < |s.used| && f < |s.refs|
  {
    s.Take(f).WithMem(s.m[f := tab])
  }

  /** Page `v` sees the same through entry `e` of a level-`l` table as through a table below it. */
  predicate SeesSame(e: Pte, l: Level, tab: Table, v: Page)
  {
    l > 0 && Seen(tab[Idx(v, l - 1)], l - 1, v) == Seen(e, l, v)
  }

  /** Taking a free frame for a table and linking it below entry `i` of the table at `x`. */
  lemma GrowByTable(s: Sys, d: Dir, x: Pos, i: nat, f: nat, tab: Table, e: Pte)
    requires Sane(s) && Space(s.m, d) && Owned(s, d) && x in d && i < 512 && f < |s.used| && !s.used[f]
    requires MayHang(s.m[f := tab], d, x, i, f, e)
    requires forall v :: SeesSame(Entry(s.m, d, x, i), x.Level(), tab, v)
    ensures Stepped(s, d, Taken(s, f, tab).WithMem(Poke(s.m[f := tab], d[x], i, e)), d[Child(x, i) := f])
  {
    var m1 := s.m[f := tab];
    var m2, d' := Poke(m1, d[x], i, e), d[Child(x, i) := f];
    SpaceFrame(s.m, m1, d);
    HangTable(m1, d, x, i, f, e);
    HangEntry(m1, d, x, i, f, e);
    GrownByOne(s, d, x, i, f, tab, e);
    ThroughView(s.m, d, x, i);
    hide *;
    forall v: Page
      ensures View(m2, d', v) == View(s.m, d, v)
    {
      assert SeesSame(Entry(s.m, d, x, i), x.Level(), tab, v);
    }
  }

  lemma GrownByOne(s: Sys, d: Dir, x: Pos, i: nat, f: nat, tab: Table, e: Pte)
    requires Sane(s) && Owned(s, d) && x in d && i < 512 && f < |s.used| && !s.used[f] && Child(x, i) !in d
    ensures var s' := Taken(s, f, tab).WithMem(Poke(s.m[f := tab], d[x], i, e)); var d' := d[Child(x, i) := f];
            Owned(s', d') && Grown(s, d, s', d')
  {
    var d' := d[Child(x, i) := f];
    assert d'[Child(x, i)] == f && New(d, d', f);
    forall g | Outside(d', g)
      ensures g != f && g != d[x]
    {
      assert x in d' && d'[x] == d[x];
    }
  }

  /** The path of `v` reaches level `l - 1`, with user access granted on the way if asked. */
  ghost predicate Reaches(s: Sys, d: Dir, v: Page, l: Level, user: bool, c: nat)
  {
    l > 0 && At(v, l - 1) in d && d[At(v, l - 1)] == c && (user ==> Entry(s.m, d, At(v, l), Idx(v, l)).u)
  }

  ghost predicate OnPath(s: Sys, d: Dir, v: Page, l: Level, user: bool)
  {
    && Sane(s) && Space(s.m, d) && Owned(s, d) && l > 0 && At(v, l) in d
    && (user && l < 3 ==> Entry(s.m, d, At(v, l + 1), Idx(v, l + 1)).u)
  }

  function Linked(s: Sys, t: nat, i: nat, f: nat, tab: Table, user: bool): Sys
    requires t < |s.m| && i < 512 && f < |s.m| && f < |s.used| && f < |s.refs|
  {
    Taken(s, f, tab).WithMem(Poke(s.m[f := tab], t, i, LinkTo(f, user)))
  }

  lemma NewTableStep(s: Sys, d: Dir, v: Page, l: Level, user: bool, f: nat)
    requires OnPath(s, d, v, l, user) && f < |s.used| && !s.used[f]
    requires !Entry(s.m, d, At(v, l), Idx(v, l)).p
    ensures Stepped(s, d, Linked(s, d[At(v, l)], Idx(v, l), f, EmptyTable(), user), d[At(v, l - 1) := f])
    ensures Reaches(Linked(s, d[At(v, l)], Idx(v, l), f, EmptyTable(), user), d[At(v, l - 1) := f], v, l, user, f)
  {
    MayLink(s, d, v, l, user, f, EmptyTable());
    GrowByTable(s, d, At(v, l), Idx(v, l), f, EmptyTable(), LinkTo(f, user));
  }

  /** The pages of a 2 MiB leaf see the same through the table that replaces it. */
  lemma SplitStep(s: Sys, d: Dir, v: Page, user: bool, f: nat)
    requires OnPath(s, d, v, 1, user) && f < |s.used| && !s.used[f]
    requires IsLeaf(Entry(s.m, d, At(v, 1), v.i2), 1)
    ensures var big := Entry(s.m, d, At(v, 1), v.i2);
            && Stepped(s, d, Linked(s, d[At(v, 1)], v.i2, f, SplitTable(big), big.u || user), d[At(v, 0) := f])
            && Reaches(Linked(s, d[At(v, 1)], v.i2, f, SplitTable(big), big.u || user), d[At(v, 0) := f], v, 1, user, f)
  {
    var big := Entry(s.m, d, At(v, 1), v.i2);
    StepDown(s.m, d, v, 1);
    assert At(v, 1).up == At(v, 2) && At(v, 1).slot == v.i3;
    MayLink(s, d, v, 1, big.u || user, f, SplitTable(big));
    GrowByTable(s, d, At(v, 1), v.i2, f, SplitTable(big), LinkTo(f, big.u || user));
  }

  /** A split keeps the other flags of a page too, unless the page was in a leaf with PCD, which is lost. */
  lemma SplitFlags(s: Sys, d: Dir, v: Page, user: bool, f: nat, u: Page)
    requires OnPath(s, d, v, 1, user) && f < |s.used| && !s.used[f]
    requires IsLeaf(Entry(s.m, d, At(v, 1), v.i2), 1)
    ensures var big := Entry(s.m, d, At(v, 1), v.i2);
            var m' := Linked(s, d[At(v, 1)], v.i2, f, SplitTable(big), big.u || user).m;
            SameFlags(LeafOf(m', d[At(v, 0) := f], u), LeafOf(s.m, d, u)) <==> !(At(u, 0) == At(v, 0) && big.pcd)
  {
    hide EntryOk, Space;
    var big := Entry(s.m, d, At(v, 1), v.i2);
    StepDown(s.m, d, v, 1);
    assert f !in d.Values;
    if At(u, 0) == At(v, 0) {
      LeafHung(s.m, d, v, f, SplitTable(big), LinkTo(f, big.u || user), u);
    } else {
      LeafApart(s.m, d, v, f, SplitTable(big), LinkTo(f, big.u || user), u);
    }
  }

  lemma LeafHung(m: Mem, d: Dir, v: Page, f: nat, tab: Table, e: Pte, u: Page)
    requires At(v, 1) in d && At(v, 0) !in d && d[At(v, 1)] < |m| && f < |m| && f !in d.Values && At(u, 0) == At(v, 0)
    ensures LeafOf(Poke(m[f := tab], d[At(v, 1)], v.i2, e), d[At(v, 0) := f], u) == tab[u.i1]
    ensures LeafOf(m, d, u) == Entry(m, d, At(v, 1), v.i2)
  {
    assert At(u, 1) == At(v, 1) && u.i2 == v.i2;
    assert At(v, 1) in d.Keys && d[At(v, 1)] in d.Values;
  }

  lemma LeafApart(m: Mem, d: Dir, v: Page, f: nat, tab: Table, e: Pte, u: Page)
    requires Space(m, d) && At(v, 1) in d && At(v, 0) !in d && f < |m| && f !in d.Values && At(u, 0) != At(v, 0)
    ensures d[At(v, 1)] < |m| && LeafOf(Poke(m[f := tab], d[At(v, 1)], v.i2, e), d[At(v, 0) := f], u) == LeafOf(m, d, u)
  {
    hide EntryOk;
    var l := Deep(d, u);
    assert Deep(d[At(v, 0) := f], u) == l;
    assert At(u, l) in d.Keys && d[At(u, l)] in d.Values;
    assert l == 1 ==> At(u, 1) != At(v, 1) || u.i2 != v.i2;
  }

  lemma MayLink(s: Sys, d: Dir, v: Page, l: Level, user: bool, f: nat, tab: Table)
    requires OnPath(s, d, v, l, user) && f < |s.used| && !s.used[f]
    requires !IsLink(Entry(s.m, d, At(v, l), Idx(v, l)), l)
    requires forall j :: 0 <= j < 512 ==> MayHold(tab[j], l - 1, user)
    ensures At(v, l) in d && d[At(v, l)] < |s.m| && At(v, l).Level() == l
    ensures Child(At(v, l), Idx(v, l)) == At(v, l - 1)
    ensures MayHang(s.m[f := tab], d, At(v, l), Idx(v, l), f, LinkTo(f, user))
    ensures Reaches(Linked(s, d[At(v, l)], Idx(v, l), f, tab, user), d[At(v, l - 1) := f], v, l, user, f)
  {
    StepDown(s.m, d, v, l);
    assert l < 3 ==> At(v, l).up == At(v, l + 1) && At(v, l).slot == Idx(v, l + 1);
    assert Entry(s.m[f := tab], d, At(v, l), Idx(v, l)) == Entry(s.m, d, At(v, l), Idx(v, l));
    if l < 3 {
      assert Entry(s.m[f := tab], d, At(v, l + 1), Idx(v, l + 1)) == Entry(s.m, d, At(v, l + 1), Idx(v, l + 1));
    }
  }

  /** What one level of paging_map_4k does to entry `i` of table `t` of level `l`, and the table
      `c` it goes on with. It fails on a 1 GiB leaf, or with no frame left for a table. */
  ghost predicate Descended(s: Sys, t: nat, l: Level, i: nat, user: bool, ok: bool, c: nat, s': Sys)
    requires t < |s.m| && i < 512
  {
    if s.m[t][i].p && (l == 3 || !s.m[t][i].ps) then
      ok && c == s.m[t][i].frame && s' == Granted(s, t, i, user)
    else if s.m[t][i].p && l == 2 then !ok && s' == s
    else if !ok then s' == s && Full(s.used)
    else if s.m[t][i].p then Fresh(s, c) && s' == Linked(s, t, i, c, SplitTable(s.m[t][i]), s.m[t][i].u || user)
    else Fresh(s, c) && s' == Linked(s, t, i, c, EmptyTable(), user)
  }

  function Granted(s: Sys, t: nat, i: nat, user: bool): Sys
    requires t < |s.m| && i < 512
  {
    if user then s.WithMem(Poke(s.m, t, i, GrantU(s.m[t][i]))) else s
  }

  /** The tables after that step. */
  function Deeper(d: Dir, v: Page, l: Level, c: nat): Dir
    requires l > 0
  {
    d[At(v, l - 1) := c]
  }

  /** One level of paging_map_4k changes no page's translation. */
  lemma DescendKeepsViews(s: Sys, d: Dir, v: Page, l: Level, user: bool, ok: bool, c: nat, s': Sys)
    requires OnPath(s, d, v, l, user) && d[At(v, l)] < |s.m|
    requires Descended(s, d[At(v, l)], l, Idx(v, l), user, ok, c, s')
    ensures Stepped(s, d, s', if ok then Deeper(d, v, l, c) else d)
    ensures ok ==> Reaches(s', Deeper(d, v, l, c), v, l, user, c)
    ensures !ok ==> Full(s.used) || (l == 2 && IsLeaf(Entry(s.m, d, At(v, 2), v.i3), 2))
  {
    StepDown(s.m, d, v, l);
    SteppedRefl(s, d);
    var e := Entry(s.m, d, At(v, l), Idx(v, l));
    if ok {
      if !e.p {
        NewTableStep(s, d, v, l, user, c);
      } else if IsLeaf(e, l) {
        SplitStep(s, d, v, user, c);
      } else {
        assert Deeper(d, v, l, c) == d;
        if user { GrantStep(s, d, v, l); }
      }
    }
  }

  lemma GrantStep(s: Sys, d: Dir, v: Page, l: Level)
    requires OnPath(s, d, v, l, true) && IsLink(Entry(s.m, d, At(v, l), Idx(v, l)), l)
    ensures var e := Entry(s.m, d, At(v, l), Idx(v, l));
            var s' := s.WithMem(Poke(s.m, d[At(v, l)], Idx(v, l), GrantU(e)));
            Stepped(s, d, s', d) && Reaches(s', d, v, l, true, e.frame)
  {
    StepDown(s.m, d, v, l);
    var e := Entry(s.m, d, At(v, l), Idx(v, l));
    assert l < 3 ==> At(v, l).up == At(v, l + 1) && At(v, l).slot == Idx(v, l + 1);
    WriteEntry(s.m, d, At(v, l), Idx(v, l), GrantU(e));
    PokeEntry(s.m, d, At(v, l), Idx(v, l), GrantU(e));
    LinkIsNotLast(s.m, d, v, l);
  }

  lemma LinkIsNotLast(m: Mem, d: Dir, v: Page, l: Level)
    requires l > 0 && At(v, l - 1) in d
    ensures forall x :: !Through(d, At(v, l), Idx(v, l), x)
  {
    forall x: Page | At(x, l) == At(v, l) && Idx(x, l) == Idx(v, l)
      ensures Deep(d, x) < l
    {
      assert At(x, l - 1) == At(v, l - 1);
    }
  }

  lemma SteppedTrans(s: Sys, d: Dir, s1: Sys, d1: Dir, s2: Sys, d2: Dir)
    requires Stepped(s, d, s1, d1) && Stepped(s1, d1, s2, d2) && Sane(s) && Sane(s1)
    ensures Stepped(s, d, s2, d2)
  {
    GrownTrans(s, d, s1, d1, s2, d2);
    hide *;
    forall v: Page
      ensures View(s2.m, d2, v) == View(s.m, d, v)
    {
      assert View(s1.m, d1, v) == View(s.m, d, v);
    }
  }

  /** Stepped, with new tables only on the path of `v`; if `v` is unmapped, no leaf goes. */
  ghost predicate Walked(s: Sys, d: Dir, s': Sys, d': Dir, v: Page)
  {
    && Stepped(s, d, s', d') && OnlyOnPath(d, d', v)
    && (View(s.m, d, v) == None ==> Anchored(s.m, d, s'.m, d'))
  }

  lemma WalkedTrans(s: Sys, d: Dir, s1: Sys, d1: Dir, s2: Sys, d2: Dir, v: Page)
    requires Walked(s, d, s1, d1, v) && Walked(s1, d1, s2, d2, v) && Sane(s) && Sane(s1)
    ensures Walked(s, d, s2, d2, v)
  {
    SteppedTrans(s, d, s1, d1, s2, d2);
    if View(s.m, d, v) == None {
      assert View(s1.m, d1, v) == None;
      AnchoredTrans(s.m, d, s1.m, d1, s2.m, d2);
    }
  }

  lemma DescendWalks(s: Sys, d: Dir, v: Page, l: Level, user: bool, ok: bool, c: nat, s': Sys)
    requires OnPath(s, d, v, l, user) && d[At(v, l)] < |s.m|
    requires Descended(s, d[At(v, l)], l, Idx(v, l), user, ok, c, s')
    ensures Walked(s, d, s', if ok then Deeper(d, v, l, c) else d, v)
  {
    DescendKeepsViews(s, d, v, l, user, ok, c, s');
    if View(s.m, d, v) == None {
      DescendAnchors(s, d, v, l, user, ok, c, s');
    }
  }

  lemma DescendAnchors(s: Sys, d: Dir, v: Page, l: Level, user: bool, ok: bool, c: nat, s': Sys)
    requires OnPath(s, d, v, l, user) && d[At(v, l)] < |s.m| && View(s.m, d, v) == None
    requires Descended(s, d[At(v, l)], l, Idx(v, l), user, ok, c, s')
    ensures Anchored(s.m, d, s'.m, if ok then Deeper(d, v, l, c) else d)
  {
    var d' := if ok then Deeper(d, v, l, c) else d;
    StepDown(s.m, d, v, l);
    var e := Entry(s.m, d, At(v, l), Idx(v, l));
    if IsLeaf(e, l) {
      DeepIsLast(s.m, d, v, l);
      assert false;
    } else {
      forall y | y in d
        ensures s'.m[d[y]] == if y == At(v, l) then s.m[d[y]][Idx(v, l) := s'.m[d[y]][Idx(v, l)]] else s.m[d[y]]
      {
        assert s.m[d[y]] == s.m[d[y]][Idx(v, l) := s.m[d[y]][Idx(v, l)]];
      }
      hide Space, Owned;
      AnchoredBut(s.m, d, s'.m, d', At(v, l), Idx(v, l));
    }
  }

  /** From `s` to `s'` the space gains the mapping `leaf` of page `v` and nothing else. */
  ghost predicate MappedTo(s: Sys, d: Dir, s': Sys, d': Dir, v: Page, leaf: Option<Leaf>)
  {
    && Space(s'.m, d') && Owned(s', d') && Grown(s, d, s', d')
    && forall x :: View(s'.m, d', x) == if x == v then leaf else View(s.m, d, x)
  }

  /** The leaf `e` is written for page `v`: the space has that mapping and no other change. */
  ghost predicate Mapped(s: Sys, d: Dir, s': Sys, d': Dir, v: Page, e: Pte)
  {
    && MappedTo(s, d, s', d', v, Seen(e, 0, v)) && OnlyOnPath(d, d', v)
    && At(v, 0) in d' && Entry(s'.m, d', At(v, 0), v.i1) == e
    && (View(s.m, d, v) == None && e.p ==> Anchored(s.m, d, s'.m, d'))
  }

  lemma SetLeafStep(s: Sys, d: Dir, v: Page, e: Pte)
    requires Sane(s) && Space(s.m, d) && Owned(s, d) && At(v, 0) in d
    requires e.p && e.u ==> Entry(s.m, d, At(v, 1), v.i2).u
    ensures d[At(v, 0)] < |s.m|
    ensures MappedTo(s, d, s.WithMem(Poke(s.m, d[At(v, 0)], v.i1, e)), d, v, Seen(e, 0, v))
  {
    StepDown(s.m, d, v, 0);
    assert At(v, 0).up == At(v, 1) && At(v, 0).slot == v.i2;
    WriteEntry(s.m, d, At(v, 0), v.i1, e);
    ThroughLeaf(d, v);
  }

  lemma WriteLeafStep(s: Sys, d: Dir, v: Page, e: Pte)
    requires Sane(s) && Space(s.m, d) && Owned(s, d) && At(v, 0) in d
    requires e.p && e.u ==> Entry(s.m, d, At(v, 1), v.i2).u
    ensures d[At(v, 0)] < |s.m|
    ensures Mapped(s, d, s.WithMem(Poke(s.m, d[At(v, 0)], v.i1, e)), d, v, e)
  {
    StepDown(s.m, d, v, 0);
    SetLeafStep(s, d, v, e);
    PokeEntry(s.m, d, At(v, 0), v.i1, e);
  }

  lemma MapAfterWalk(s: Sys, d: Dir, s1: Sys, d1: Dir, s2: Sys, v: Page, e: Pte)
    requires Sane(s) && Sane(s1) && Walked(s, d, s1, d1, v) && Mapped(s1, d1, s2, d1, v, e)
    ensures Mapped(s, d, s2, d1, v, e)
  {
    GrownTrans(s, d, s1, d1, s2, d1);
    if View(s.m, d, v) == None && e.p {
      assert View(s1.m, d1, v) == None;
      AnchoredTrans(s.m, d, s1.m, d1, s2.m, d1);
    }
  }

  // ----- taking mappings away -----

  /** Page `v` is a 4 KiB user leaf. */
  predicate IsUser4k(m: Mem, d: Dir, v: Page)
  {
    At(v, 0) in d && Entry(m, d, At(v, 0), v.i1).p && Entry(m, d, At(v, 0), v.i1).u
  }

  lemma UserShown(m: Mem, d: Dir, v: Page)
    ensures IsUser4k(m, d, v) <==> At(v, 0) in d && View(m, d, v).Some? && View(m, d, v).value.u
  {
  }

  /** From `s` to `s'` the space `d` may only lose tables, whose frames are freed, and nothing
      outside its own tables changes. */
  ghost predicate Shrunk(s: Sys, d: Dir, s': Sys, d': Dir)
  {
    && |s'.m| == |s.m| && s'.data == s.data && |s'.used| == |s.used| && s'.refs == s.refs
    && (forall x :: x in d' ==> x in d && d'[x] == d[x])
    && (forall x :: x in d && x !in d' ==> d[x] < |s'.used| && !s'.used[d[x]])
    && (forall f :: 0 <= f < |s.m| && Outside(d, f) ==> s'.m[f] == s.m[f])
    && (forall f :: 0 <= f < |s.used| && !New(d', d, f) ==> s'.used[f] == s.used[f])
    && OnlyCleared(s.m, d, s'.m, d')
  }

  /** Entries of the tables that stay are unchanged or cleared. */
  ghost predicate OnlyCleared(m: Mem, d: Dir, m': Mem, d': Dir)
  {
    forall x, i :: x in d' && 0 <= i < 512 ==> Entry(m', d', x, i) == Entry(m, d, x, i) || Entry(m', d', x, i) == ZERO
  }

  /** The space is kept, it may only have lost tables, and no page changed its translation. */
  ghost predicate Pruned(s: Sys, d: Dir, s': Sys, d': Dir)
  {
    Space(s'.m, d') && Owned(s', d') && Shrunk(s, d, s', d') && SameViews(s.m, d, s'.m, d')
  }

  lemma PrunedRefl(s: Sys, d: Dir)
    requires Space(s.m, d) && Owned(s, d)
    ensures Pruned(s, d, s, d)
  {
  }

  lemma OnlyClearedTrans(m: Mem, d: Dir, m1: Mem, d1: Dir, m2: Mem, d2: Dir)
    requires OnlyCleared(m, d, m1, d1) && OnlyCleared(m1, d1, m2, d2) && forall x :: x in d2 ==> x in d1
    ensures OnlyCleared(m, d, m2, d2)
  {
    hide Entry;
  }

  lemma ShrunkGone(s: Sys, d: Dir, s1: Sys, d1: Dir, s2: Sys, d2: Dir, x: Pos)
    requires Shrunk(s, d, s1, d1) && Shrunk(s1, d1, s2, d2) && OneFrameEach(d) && x in d && x !in d2
    ensures d[x] < |s2.used| && !s2.used[d[x]]
  {
    hide OnlyCleared, Outside;
    if x !in d1 { assert !New(d2, d1, d[x]); }
  }

  lemma ShrunkUsed(s: Sys, d: Dir, s1: Sys, d1: Dir, s2: Sys, d2: Dir, f: nat)
    requires Shrunk(s, d, s1, d1) && Shrunk(s1, d1, s2, d2) && f < |s.used| && !New(d2, d, f)
    ensures f < |s2.used| && s2.used[f] == s.used[f]
  {
    hide OnlyCleared, Outside;
    assert !New(d1, d, f) && !New(d2, d1, f);
  }

  lemma ShrunkTrans(s: Sys, d: Dir, s1: Sys, d1: Dir, s2: Sys, d2: Dir)
    requires Shrunk(s, d, s1, d1) && Shrunk(s1, d1, s2, d2) && OneFrameEach(d)
    ensures Shrunk(s, d, s2, d2)
  {
    hide OnlyCleared, New;
    OnlyClearedTrans(s.m, d, s1.m, d1, s2.m, d2);
    forall x | x in d && x !in d2
      ensures d[x] < |s2.used| && !s2.used[d[x]]
    {
      ShrunkGone(s, d, s1, d1, s2, d2, x);
    }
    forall f | 0 <= f < |s.m| && Outside(d, f)
      ensures s2.m[f] == s.m[f]
    {
      assert Outside(d1, f);
    }
    forall f | 0 <= f < |s.used| && !New(d2, d, f)
      ensures s2.used[f] == s.used[f]
    {
      ShrunkUsed(s, d, s1, d1, s2, d2, f);
    }
  }

  lemma PrunedTrans(s: Sys, d: Dir, s1: Sys, d1: Dir, s2: Sys, d2: Dir)
    requires Space(s.m, d) && Owned(s, d) && Sane(s) && Pruned(s, d, s1, d1) && Pruned(s1, d1, s2, d2)
    ensures Pruned(s, d, s2, d2)
  {
    ShrunkTrans(s, d, s1, d1, s2, d2);
    hide *;
    forall v: Page
      ensures View(s2.m, d2, v) == View(s.m, d, v)
    {
      assert View(s1.m, d1, v) == View(s.m, d, v);
    }
  }

  /** Frees the empty table of level `l` on the path of `v` and clears the entry above it. */
  function PruneAt(s: Sys, d: Dir, v: Page, l: Level): Sys
    requires l < 3 && At(v, l) in d && At(v, l + 1) in d && d[At(v, l + 1)] < |s.m|
  {
    s.Free(d[At(v, l)]).WithMem(Poke(s.m, d[At(v, l + 1)], Idx(v, l + 1), ZERO))
  }

  lemma PruneStep(s: Sys, d: Dir, v: Page, l: Level)
    requires Sane(s) && Space(s.m, d) && Owned(s, d) && l < 3 && IsEmpty(s.m, d, At(v, l))
    ensures At(v, l + 1) in d && d[At(v, l + 1)] < |s.m|
    ensures Pruned(s, d, PruneAt(s, d, v, l), Without(d, At(v, l)))
  {
    assert At(v, l).up == At(v, l + 1) && At(v, l).slot == Idx(v, l + 1);
    assert Child(At(v, l + 1), Idx(v, l + 1)) == At(v, l);
    DropTable(s.m, d, At(v, l + 1), Idx(v, l + 1));
    PruneShrinks(s, d, At(v, l), At(v, l + 1), Idx(v, l + 1));
  }

  lemma PruneShrinks(s: Sys, d: Dir, c: Pos, x: Pos, i: nat)
    requires Sane(s) && OneFrameEach(d) && Owned(s, d) && c in d && x in d && i < 512
    ensures Owned(s.Free(d[c]).WithMem(Poke(s.m, d[x], i, ZERO)), Without(d, c))
    ensures Shrunk(s, d, s.Free(d[c]).WithMem(Poke(s.m, d[x], i, ZERO)), Without(d, c))
  {
    var d' := Without(d, c);
    assert c in d && c !in d' && New(d', d, d[c]);
    assert forall y :: y in d' ==> d'[y] != d[c];
    assert OnlyCleared(s.m, d, Poke(s.m, d[x], i, ZERO), d');
  }

  lemma PruneNoEmpty(s: Sys, d: Dir, v: Page, l: Level)
    requires Sane(s) && Space(s.m, d) && Owned(s, d) && l < 3 && IsEmpty(s.m, d, At(v, l)) &&
             NoEmptyBut(s.m, d, At(v, l))
    requires At(v, l + 1) in d
    ensures NoEmptyBut(PruneAt(s, d, v, l).m, Without(d, At(v, l)), At(v, l + 1))
  {
    var m', d' := PruneAt(s, d, v, l).m, Without(d, At(v, l));
    forall x | x in d' && x.Below? && x != At(v, l + 1)
      ensures !IsEmpty(m', d', x)
    {
      assert !IsEmpty(s.m, d, x);
      assert m'[d'[x]] == s.m[d[x]];
    }
  }

  /** The frame of a user leaf is no table of the space, unless the allocator does not own it. */
  ghost predicate LeafSafe(s: Sys, d: Dir, v: Page)
  {
    var f := Entry(s.m, d, At(v, 0), v.i1).frame;
    f < |s.refs| && s.refs[f] > 0 ==> Outside(d, f)
  }

  /** The leaf of `v` cleared and its frame let go of. */
  function Cleared(s: Sys, d: Dir, v: Page): Sys
    requires Frames(s.used, s.refs).WellFormed() && At(v, 0) in d && d[At(v, 0)] < |s.m|
  {
    s.Deref(Entry(s.m, d, At(v, 0), v.i1).frame).WithMem(Poke(s.m, d[At(v, 0)], v.i1, ZERO))
  }

  ghost predicate UnmapOk(s: Sys, d: Dir, v: Page)
  {
    Frames(s.used, s.refs).WellFormed() && At(v, 0) in d && d[At(v, 0)] < |s.m|
  }

  lemma ClearStep(s: Sys, d: Dir, v: Page)
    requires Sane(s) && Space(s.m, d) && Owned(s, d) && At(v, 0) in d && LeafSafe(s, d, v)
    ensures d[At(v, 0)] < |s.m| && Frames(s.used, s.refs).WellFormed()
    ensures Sane(Cleared(s, d, v)) && Space(Cleared(s, d, v).m, d) && Owned(Cleared(s, d, v), d)
    ensures forall x :: View(Cleared(s, d, v).m, d, x) == if x == v then None else View(s.m, d, x)
    ensures NoEmptyBut(s.m, d, Top) ==> NoEmptyBut(Cleared(s, d, v).m, d, At(v, 0))
  {
    SetLeafStep(s, d, v, ZERO);
    if NoEmptyBut(s.m, d, Top) { ClearNoEmpty(s, d, v); }
  }

  lemma ClearNoEmpty(s: Sys, d: Dir, v: Page)
    requires Sane(s) && Space(s.m, d) && Frames(s.used, s.refs).WellFormed() && At(v, 0) in d && NoEmptyBut(s.m, d, Top)
    ensures NoEmptyBut(Cleared(s, d, v).m, d, At(v, 0))
  {
    var m' := Cleared(s, d, v).m;
    forall x | x in d && x.Below? && x != At(v, 0)
      ensures !IsEmpty(m', d, x)
    {
      assert !IsEmpty(s.m, d, x) && m'[d[x]] == s.m[d[x]];
    }
  }

  /** How many of the first `n` entries are present. */
  function Present(tab: Table, n: nat): nat
    requires n <= 512
  {
    if n == 0 then 0 else Present(tab, n - 1) + (if tab[n - 1].p then 1 else 0)
  }

  lemma {:induction false} PresentNone(tab: Table, n: nat)
    requires n <= 512
    ensures Present(tab, n) == 0 <==> forall j :: 0 <= j < n ==> !tab[j].p
  {
    if n > 0 { PresentNone(tab, n - 1); }
  }

  /** The cascade from the level-`l` table on the path of `v`: a table is freed exactly when no
      present entry is left in it, and only then is the table above it looked at. */
  ghost function Cascaded(s: Sys, d: Dir, v: Page, l: Level): (Sys, Dir)
    decreases 3 - l
  {
    if l < 3 && IsEmpty(s.m, d, At(v, l)) && At(v, l + 1) in d && d[At(v, l + 1)] < |s.m| then
      Cascaded(PruneAt(s, d, v, l), Without(d, At(v, l)), v, l + 1)
    else (s, d)
  }

  /** The tables on the path of `v` from level `l` up. */
  ghost predicate OnPathTo(d: Dir, v: Page, l: Level, pdpt: nat, pd: nat, pt: nat)
  {
    && (l == 0 ==> At(v, 0) in d && d[At(v, 0)] == pt) && (l <= 1 ==> At(v, 1) in d && d[At(v, 1)] == pd)
    && (l <= 2 ==> At(v, 2) in d && d[At(v, 2)] == pdpt)
  }

  lemma PathFacts(s: Sys, d: Dir, v: Page, l: Level, pdpt: nat, pd: nat, pt: nat)
    requires Sane(s) && Space(s.m, d) && Owned(s, d) && l < 3 && OnPathTo(d, v, l, pdpt, pd, pt)
    ensures At(v, l) in d && At(v, l + 1) in d && 0 < d[At(v, l)] < |s.m| && d[At(v, l + 1)] < |s.m|
    ensures d[At(v, l)] == if l == 0 then pt else if l == 1 then pd else pdpt
    ensures d[At(v, l + 1)] == if l == 0 then pd else if l == 1 then pdpt else d[Top]
    ensures l < 2 ==> OnPathTo(Without(d, At(v, l)), v, l + 1, pdpt, pd, pt)
    ensures Present(s.m[d[At(v, l)]], 512) == 0 <==> IsEmpty(s.m, d, At(v, l))
  {
    PresentNone(s.m[d[At(v, l)]], 512);
  }

  lemma PruneKeeps(s: Sys, d: Dir, v: Page, l: Level)
    requires Sane(s) && Space(s.m, d) && Owned(s, d) && l < 3 && IsEmpty(s.m, d, At(v, l))
    ensures At(v, l + 1) in d && 0 < d[At(v, l)] < |s.m| && d[At(v, l + 1)] < |s.m|
    ensures Sane(PruneAt(s, d, v, l)) && Pruned(s, d, PruneAt(s, d, v, l), Without(d, At(v, l)))
    ensures At(v, l + 1) in Without(d, At(v, l)) && Top in Without(d, At(v, l)) && Without(d, At(v, l))[Top] == d[Top]
  {
    PruneStep(s, d, v, l);
  }

  lemma {:induction false} CascadePrunes(s: Sys, d: Dir, v: Page, l: Level)
    requires Sane(s) && Space(s.m, d) && Owned(s, d) && At(v, l) in d
    ensures Sane(Cascaded(s, d, v, l).0) && Pruned(s, d, Cascaded(s, d, v, l).0, Cascaded(s, d, v, l).1)
    ensures Top in Cascaded(s, d, v, l).1 && Cascaded(s, d, v, l).1[Top] == d[Top]
    decreases 3 - l
  {
    PrunedRefl(s, d);
    if l < 3 && IsEmpty(s.m, d, At(v, l)) {
      PruneKeeps(s, d, v, l);
      var s1, d1 := PruneAt(s, d, v, l), Without(d, At(v, l));
      CascadePrunes(s1, d1, v, l + 1);
      PrunedTrans(s, d, s1, d1, Cascaded(s1, d1, v, l + 1).0, Cascaded(s1, d1, v, l + 1).1);
      hide *;
      assert Cascaded(s, d, v, l) == Cascaded(s1, d1, v, l + 1) by { CascadeUnfold(s, d, v, l); }
    }
  }

  lemma CascadeUnfold(s: Sys, d: Dir, v: Page, l: Level)
    requires l < 3 && IsEmpty(s.m, d, At(v, l)) && At(v, l + 1) in d && d[At(v, l + 1)] < |s.m|
    ensures Cascaded(s, d, v, l) == Cascaded(PruneAt(s, d, v, l), Without(d, At(v, l)), v, l + 1)
  {
  }

  lemma {:induction false} CascadeNoEmpty(s: Sys, d: Dir, v: Page, l: Level)
    requires Sane(s) && Space(s.m, d) && Owned(s, d) && At(v, l) in d && NoEmptyBut(s.m, d, At(v, l))
    ensures NoEmptyBut(Cascaded(s, d, v, l).0.m, Cascaded(s, d, v, l).1, Top)
    decreases 3 - l
  {
    if l < 3 && IsEmpty(s.m, d, At(v, l)) {
      PruneKeeps(s, d, v, l);
      PruneNoEmpty(s, d, v, l);
      CascadeNoEmpty(PruneAt(s, d, v, l), Without(d, At(v, l)), v, l + 1);
    }
  }

  /** The cascade never frees a table that an earlier state had in use, if `v` was unmapped there. */
  lemma {:induction false} CascadeAnchored(m0: Mem, d0: Dir, s: Sys, d: Dir, v: Page, l: Level)
    requires Space(m0, d0) && NoEmptyBut(m0, d0, Top) && View(m0, d0, v) == None && Anchored(m0, d0, s.m, d)
    requires Sane(s) && Space(s.m, d) && Owned(s, d) && At(v, l) in d
    ensures Anchored(m0, d0, Cascaded(s, d, v, l).0.m, Cascaded(s, d, v, l).1)
    decreases 3 - l
  {
    if l < 3 && IsEmpty(s.m, d, At(v, l)) {
      PruneKeeps(s, d, v, l);
      PruneAnchored(m0, d0, s, d, v, l);
      CascadeAnchored(m0, d0, PruneAt(s, d, v, l), Without(d, At(v, l)), v, l + 1);
    }
  }

  lemma PruneAnchored(m0: Mem, d0: Dir, s: Sys, d: Dir, v: Page, l: Level)
    requires Space(m0, d0) && NoEmptyBut(m0, d0, Top) && View(m0, d0, v) == None && Anchored(m0, d0, s.m, d)
    requires Sane(s) && Space(s.m, d) && Owned(s, d) && l < 3 && IsEmpty(s.m, d, At(v, l)) && At(v, l + 1) in d
    ensures Anchored(m0, d0, PruneAt(s, d, v, l).m, Without(d, At(v, l)))
  {
    EmptyIsNew(m0, d0, s.m, d, At(v, l));
    PokeEntry(s.m, d, At(v, l + 1), Idx(v, l + 1), ZERO);
    if At(v, l + 1) in d0 {
      DeepIsLast(m0, d0, v, l + 1);
    }
    assert !IsLeaf(Entry(m0, d0, At(v, l + 1), Idx(v, l + 1)), l + 1);
    hide Space, Owned, NoEmptyBut, Deep, Sane, OneFrameEach;
    AnchoredLess(m0, d0, s.m, d, PruneAt(s, d, v, l).m, Without(d, At(v, l)), At(v, l + 1), Idx(v, l + 1));
  }

  lemma EmptyIsNew(m0: Mem, d0: Dir, m: Mem, d: Dir, x: Pos)
    requires Space(m0, d0) && Space(m, d) && NoEmptyBut(m0, d0, Top) && Anchored(m0, d0, m, d)
    requires IsEmpty(m, d, x) && x != Top
    ensures x !in d0
  {
    if x in d0 {
      var i :| 0 <= i < 512 && m0[d0[x]][i].p;
      EntryKept(m0, d0, m, d, x, i);
    }
  }

  /** paging_unmap_4k of the user leaf `v`. */
  ghost function Unmap(s: Sys, d: Dir, v: Page): (Sys, Dir)
    requires UnmapOk(s, d, v)
  {
    Cascaded(Cleared(s, d, v), d, v, 0)
  }

  /** A 1 GiB leaf is in the way of page `v`. */
  ghost predicate Giant(m: Mem, d: Dir, v: Page)
  {
    IsLeaf(Entry(m, d, At(v, 2), v.i3), 2)
  }

  lemma NoGiant(m: Mem, d: Dir, v: Page)
    requires Space(m, d) && View(m, d, v) == None
    ensures !Giant(m, d, v)
  {
    if At(v, 2) in d {
      StepDown(m, d, v, 2);
      if Giant(m, d, v) { DeepIsLast(m, d, v, 2); }
    }
  }

  const PAGES := 0x10_0000_0000   // pages of the 48-bit address space
  const FRAMES := 0x100_0000_0000 // frames of the 52-bit physical one

  /** Page number `q`, by its table indices; numbers that differ by 2^36 are the same page. */
  function PageNo(q: nat): Page
  {
    VPage(q / 0x800_0000 % 512, q / 0x4_0000 % 512, q / 512 % 512, q % 512)
  }

  /** Page `i` of the run that starts at page number `q`. */
  function PageAt(q: nat, i: nat): Page
  {
    PageNo(q + i)
  }

  /** The page of an address, and the frame of a physical one: 48 and 52 bits count. */
  function PageOf(virt: nat): Page
  {
    PageNo(virt / 4096)
  }

  function FrameOf(phys: nat): nat
  {
    phys / 4096 % FRAMES
  }

  /** The physical address of `virt` under its page's translation, or 0. */
  function PhysOf(x: Option<Leaf>, virt: nat): nat
  {
    match x
    case None => 0
    case Some(l) => l.frame * 4096 + virt % 4096
  }

  lemma Offset2M(virt: nat)
    ensures virt % 0x20_0000 == PageOf(virt).i1 * 4096 + virt % 4096
  {
    assert virt == 4096 * (virt / 4096) + virt % 4096;
    assert virt / 4096 == 512 * (virt / 4096 / 512) + PageOf(virt).i1;
  }

  lemma Offset1G(virt: nat)
    ensures virt % 0x4000_0000 == PageOf(virt).i2 * 0x20_0000 + PageOf(virt).i1 * 4096 + virt % 4096
  {
    Offset2M(virt);
    var k, i2 := virt / 4096 / 512, PageOf(virt).i2;
    TwoMegs(virt);
    assert k == 512 * (k / 512) + i2;
    hide PageOf;
    Rem1G(virt, k / 512, i2 * 0x20_0000 + virt % 0x20_0000);
  }

  lemma TwoMegs(virt: nat)
    ensures virt == 0x20_0000 * (virt / 4096 / 512) + virt % 0x20_0000
  {
  }

  lemma Rem1G(x: nat, m: nat, r: nat)
    requires x == 0x4000_0000 * m + r && r < 0x4000_0000
    ensures x % 0x4000_0000 == r
  {
  }

  /** The address a leaf of level `l` gives: its own bits, then those of `virt` below the leaf's size. */
  function LeafPhys(e: Pte, l: Level, virt: nat): nat
  {
    if !e.p then 0
    else if l == 2 then e.frame / 262144 * 262144 * 4096 + virt % 0x4000_0000
    else if l == 1 then e.frame / 512 * 512 * 4096 + virt % 0x20_0000
    else e.frame * 4096 + virt % 4096
  }

  /** An entry on the path of `virt` either leads on, or decides its address. */
  lemma LastPhys(m: Mem, d: Dir, virt: nat, l: Level)
    requires Space(m, d) && At(PageOf(virt), l) in d
    ensures var v := PageOf(virt); var e := Entry(m, d, At(v, l), Idx(v, l));
            && d[At(v, l)] < |m| && e == m[d[At(v, l)]][Idx(v, l)]
            && (IsLink(e, l) ==> At(v, l - 1) in d && d[At(v, l - 1)] == e.frame)
            && (!IsLink(e, l) ==> PhysOf(View(m, d, v), virt) == LeafPhys(e, l, virt))
  {
    hide PageOf, Space;
    var v := PageOf(virt);
    StepDown(m, d, v, l);
    if !IsLink(Entry(m, d, At(v, l), Idx(v, l)), l) {
      DeepIsLast(m, d, v, l);
      Offset2M(virt);
      Offset1G(virt);
    }
  }

  /** Page `v` is one of those from that of address `virt` up to the last that begins before `virt + len`. */
  ghost predicate Spans(virt: nat, len: nat, v: Page)
  {
    exists r: nat {:trigger PageNo(r)} :: virt / 4096 <= r && r * 4096 < virt + len && v == PageNo(r)
  }

  /** Every byte of the range is on one of them. */
  lemma SpansByte(virt: nat, len: nat, a: nat)
    requires virt <= a < virt + len
    ensures Spans(virt, len, PageOf(a))
  {
    hide PageNo;
    assert a / 4096 * 4096 <= a && virt / 4096 <= a / 4096;
  }

  /** How many pages the `len` bytes at `virt` touch. */
  function Touched(virt: nat, len: nat): nat
  {
    (virt + len + 4095) / 4096 - virt / 4096
  }

  lemma FrameBack(f: nat)
    requires f < FRAMES
    ensures FrameOf(f * 4096) == f && f * 4096 % 4096 == 0
  {
  }

  lemma RangePage(virt: nat, i: nat, n: nat)
    requires i < n
    ensures PageOf(virt + i * 4096) == PageAt(virt / 4096, i) && (virt + i * 4096) % 4096 == virt % 4096
  {
    hide PageNo;
    assert virt == 4096 * (virt / 4096) + virt % 4096;
  }

  lemma PageDigits(q: nat)
    ensures var v := PageNo(q); q % PAGES == v.i4 * 0x800_0000 + v.i3 * 0x4_0000 + v.i2 * 512 + v.i1
  {
    var v, a := PageNo(q), q / 512;
    var b := a / 512;
    var c := b / 512;
    assert q == 512 * a + v.i1;
    assert b == q / 0x4_0000 && c == q / 0x800_0000;
    assert a == 512 * b + v.i2;
    assert b == 512 * c + v.i3;
    assert c == 512 * (c / 512) + v.i4;
  }

  lemma PagesDistinct(q: nat, i: nat, j: nat)
    requires i < j < i + PAGES
    ensures PageAt(q, i) != PageAt(q, j)
  {
    PageDigits(q + i);
    PageDigits(q + j);
    ModDistinct(q + i, j - i);
    hide PageNo;
  }

  lemma ModDistinct(a: nat, k: nat)
    requires 0 < k < PAGES
    ensures a % PAGES != (a + k) % PAGES
  {
    var n, r := a / PAGES, a % PAGES;
    assert a + k == if r + k < PAGES then n * PAGES + (r + k) else (n + 1) * PAGES + (r + k - PAGES);
  }
}
