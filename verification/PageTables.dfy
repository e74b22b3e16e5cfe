/** Four-level x86-64 page tables as values: what a walk yields, where each table of an address
    space sits, and the invariant the kernel keeps on them (kernel/arch/x86_64/paging.c). */
module PageTables {
  import opened Tiny

  /** One 64-bit table entry, bit by bit. `frame` is address bits 12..51, `avl` bits 9..11 and
      `hi` bits 52..62; `ps` is bit 7, which is PAT in a 4 KiB leaf. */
  datatype Pte = Pte(p: bool, w: bool, u: bool, pwt: bool, pcd: bool, a: bool, d: bool, ps: bool, g: bool,
                     avl: nat, frame: nat, hi: nat, nx: bool)

  const ZERO := Pte(false, false, false, false, false, false, false, false, false, 0, 0, 0, false)

  type Table = t: seq<Pte> | |t| == 512 witness seq(512, _ => ZERO)

  function EmptyTable(): Table
  {
    seq(512, _ => ZERO)
  }

  /** Physical memory seen as tables, one a frame. */
  type Mem = seq<Table>

  /** Levels as in vmm.c: 3 = PML4, 2 = PDPT, 1 = PD, 0 = PT. */
  type Level = l: int | 0 <= l < 4

  /** A virtual page, by its four table indices (bits 39, 30, 21 and 12 up). */
  datatype VPage = VPage(i4: nat, i3: nat, i2: nat, i1: nat)

  type Page = v: VPage | v.i4 < 512 && v.i3 < 512 && v.i2 < 512 && v.i1 < 512
    witness VPage(0, 0, 0, 0)

  function Idx(v: Page, l: Level): (i: nat)
    ensures i < 512
  {
    if l == 3 then v.i4 else if l == 2 then v.i3 else if l == 1 then v.i2 else v.i1
  }

  /** What the processor sees at a page: the frame, and write and user access with the bits of
      every level taken together. */
  datatype Leaf = Leaf(frame: nat, w: bool, u: bool)

  /** `e | PTE_U`. */
  function GrantU(e: Pte): Pte
  {
    e.(u := true)
  }

  /** The entry points to a lower table (paging.c does not look at PS in the PML4). */
  predicate IsLink(e: Pte, l: Level)
  {
    e.p && l > 0 && !(e.ps && l < 3)
  }

  predicate IsLeaf(e: Pte, l: Level)
  {
    e.p && !IsLink(e, l)
  }

  /** The frame of page `v` inside a leaf of level `l`: large leaves ignore their low bits. */
  function LeafFrame(e: Pte, l: Level, v: Page): nat
  {
    if l == 0 then e.frame
    else if l == 1 then e.frame / 512 * 512 + v.i1
    else e.frame / 262144 * 262144 + v.i2 * 512 + v.i1
  }

  /** The hardware walk from table `t` of level `l`. */
  function Walk(m: Mem, t: nat, l: Level, v: Page): Option<Leaf>
    decreases l
  {
    if t >= |m| then None else
    var e := m[t][Idx(v, l)];
    if !e.p then None
    else if IsLeaf(e, l) then Some(Leaf(LeafFrame(e, l, v), e.w, e.u))
    else match Walk(m, e.frame, l - 1, v)
      case None => None
      case Some(x) => Some(Leaf(x.frame, x.w && e.w, x.u && e.u))
  }

  /** The place of a table in an address space: the PML4, or entry `slot` of the table `up`. */
  datatype Pos = Top | Below(l: int, up: Pos, slot: nat)
  {
    function Level(): int
    {
      if Top? then 3 else l
    }

    predicate Valid()
    {
      Below? ==> 0 <= l && l == up.Level() - 1 && slot < 512
    }
  }

  function Child(x: Pos, i: nat): Pos
  {
    Below(x.Level() - 1, x, i)
  }

  /** The place of the level-`l` table on the path of `v`. */
  function At(v: Page, l: Level): Pos
  {
    if l == 3 then Top
    else if l == 2 then Below(2, Top, v.i4)
    else if l == 1 then Below(1, Below(2, Top, v.i4), v.i3)
    else Below(0, Below(1, Below(2, Top, v.i4), v.i3), v.i2)
  }

  /** The tables of one address space: which frame holds the table of each place. */
  type Dir = map<Pos, nat>

  function Entry(m: Mem, d: Dir, x: Pos, i: nat): Pte
  {
    if x in d && d[x] < |m| && i < 512 then m[d[x]][i] else ZERO
  }

  /** What paging.c keeps true of an entry: a link leads to the table of the place below, links and
      large leaves are writable, a large leaf is aligned, no 1 GiB leaf is a user leaf, and user
      access is granted only below an entry that grants it. */
  ghost predicate EntryOk(m: Mem, d: Dir, x: Pos, i: nat)
    requires 0 <= x.Level() <= 3
  {
    var e := Entry(m, d, x, i);
    && (IsLink(e, x.Level()) <==> x.Level() > 0 && Child(x, i) in d)
    && (IsLink(e, x.Level()) ==> d[Child(x, i)] == e.frame && !e.ps)
    && (e.p && x.Level() > 0 ==> e.w)
    && (IsLeaf(e, x.Level()) ==>
         (x.Level() == 1 ==> e.frame % 512 == 0) && (x.Level() == 2 ==> e.frame % 262144 == 0 && !e.u))
    && (e.p && e.u && x.Below? ==> Entry(m, d, x.up, x.slot).u)
  }

  /** No frame holds two tables. */
  ghost predicate OneFrameEach(d: Dir)
  {
    forall x, y :: x in d && y in d && d[x] == d[y] ==> x == y
  }

  /** `d` lists the tables of an address space in `m`: they form a tree, since each frame has
      one place and each place but the top has its parent. */
  ghost predicate Space(m: Mem, d: Dir)
  {
    && Top in d
    && (forall x :: x in d ==> x.Valid() && 0 <= x.Level() <= 3 && d[x] < |m| && (x.Below? ==> x.up in d))
    && OneFrameEach(d)
    && (forall x, i :: x in d && 0 <= i < 512 ==> EntryOk(m, d, x, i))
  }

  /** The level of the last table on the path of `v`. */
  function Deep(d: Dir, v: Page): (l: Level)
  {
    if At(v, 0) in d then 0 else if At(v, 1) in d then 1 else if At(v, 2) in d then 2 else 3
  }

  /** The entry that translates `v`. */
  function LeafOf(m: Mem, d: Dir, v: Page): Pte
  {
    Entry(m, d, At(v, Deep(d, v)), Idx(v, Deep(d, v)))
  }

  /** The flags of an entry that say nothing about who may read or write. */
  predicate SameFlags(a: Pte, b: Pte)
  {
    a.pwt == b.pwt && a.pcd == b.pcd && a.a == b.a && a.d == b.d && a.g == b.g && a.nx == b.nx
  }

  /** The translation of `v`, read off the last table on its path. */
  function View(m: Mem, d: Dir, v: Page): Option<Leaf>
  {
    var l := Deep(d, v);
    var e := Entry(m, d, At(v, l), Idx(v, l));
    if e.p then Some(Leaf(LeafFrame(e, l, v), e.w, e.u)) else None
  }

  lemma StepDown(m: Mem, d: Dir, v: Page, l: Level)
    requires Space(m, d) && At(v, l) in d
    ensures var e := Entry(m, d, At(v, l), Idx(v, l));
            && d[At(v, l)] < |m| && e == m[d[At(v, l)]][Idx(v, l)]
            && EntryOk(m, d, At(v, l), Idx(v, l))
            && (IsLink(e, l) <==> l > 0 && At(v, l - 1) in d)
            && (IsLink(e, l) ==> d[At(v, l - 1)] == e.frame && e.w)
  {
    assert EntryOk(m, d, At(v, l), Idx(v, l));
    if l > 0 { assert Child(At(v, l), Idx(v, l)) == At(v, l - 1); }
  }

  /** The hardware walk agrees with the last entry on the path: a writable, user-granting leaf is
      never cut off by an entry above it. */
  lemma WalkIsView(m: Mem, d: Dir, v: Page)
    requires Space(m, d)
    ensures Walk(m, d[Top], 3, v) == View(m, d, v)
  {
    WalkFrom(m, d, v, 3);
  }

  lemma {:induction false} WalkFrom(m: Mem, d: Dir, v: Page, l: Level)
    requires Space(m, d) && At(v, l) in d
    ensures Deep(d, v) <= l
    ensures Walk(m, d[At(v, l)], l, v) == View(m, d, v)
    ensures l < 3 && View(m, d, v).Some? && View(m, d, v).value.u ==> Entry(m, d, At(v, l + 1), Idx(v, l + 1)).u
    decreases l
  {
    StepDown(m, d, v, l);
    var e := Entry(m, d, At(v, l), Idx(v, l));
    assert l < 3 ==> At(v, l).up == At(v, l + 1) && At(v, l).slot == Idx(v, l + 1);
    if IsLink(e, l) {
      WalkFrom(m, d, v, l - 1);
    } else {
      DeepIsLast(m, d, v, l);
    }
  }

  lemma DeepIsLast(m: Mem, d: Dir, v: Page, l: Level)
    requires Space(m, d) && At(v, l) in d && (l > 0 ==> At(v, l - 1) !in d)
    ensures Deep(d, v) == l
  {
    assert At(v, 0).up == At(v, 1) && At(v, 1).up == At(v, 2);
  }

  // ----- the single steps every table operation is made of -----

  function Poke(m: Mem, f: nat, i: nat, e: Pte): (m': Mem)
    requires f < |m| && i < 512
    ensures |m'| == |m|
  {
    m[f := m[f][i := e]]
  }

  ghost predicate Agree(m: Mem, m': Mem, d: Dir)
  {
    |m'| == |m| && forall x :: x in d && d[x] < |m| ==> m'[d[x]] == m[d[x]]
  }

  /** An address space depends only on the frames of its own tables. */
  lemma SpaceFrame(m: Mem, m': Mem, d: Dir)
    requires Space(m, d) && Agree(m, m', d)
    ensures Space(m', d)
    ensures forall v :: View(m', d, v) == View(m, d, v)
  {
    forall x, i | x in d && 0 <= i < 512
      ensures EntryOk(m', d, x, i)
    {
      assert EntryOk(m, d, x, i);
    }
  }

  /** Every page has the same translation before and after. */
  ghost predicate SameViews(m: Mem, d: Dir, m': Mem, d': Dir)
  {
    forall v :: View(m', d', v) == View(m, d, v)
  }

  /** What a page sees through entry `e` of the last table on its path. */
  function Seen(e: Pte, l: Level, v: Page): Option<Leaf>
  {
    if e.p then Some(Leaf(LeafFrame(e, l, v), e.w, e.u)) else None
  }

  /** `v` is translated by entry `i` of the table at `x`. */
  predicate Through(d: Dir, x: Pos, i: nat, v: Page)
    requires 0 <= x.Level() <= 3
  {
    Deep(d, v) == x.Level() && At(v, x.Level()) == x && Idx(v, x.Level()) == i
  }

  lemma ThroughView(m: Mem, d: Dir, x: Pos, i: nat)
    requires 0 <= x.Level() <= 3
    ensures forall v :: Through(d, x, i, v) ==> View(m, d, v) == Seen(Entry(m, d, x, i), x.Level(), v)
  {
  }

  /** Entry `i` of the table at `x` may be overwritten by `e` without changing the tree. */
  ghost predicate MayWrite(m: Mem, d: Dir, x: Pos, i: nat, e: Pte)
    requires 0 <= x.Level() <= 3
  {
    var was := Entry(m, d, x, i);
    && (IsLink(was, x.Level()) <==> IsLink(e, x.Level()))
    && (IsLink(e, x.Level()) ==> e.frame == was.frame && !e.ps && (was.u ==> e.u))
    && (e.p && x.Level() > 0 ==> e.w)
    && (IsLeaf(e, x.Level()) ==>
         (x.Level() == 1 ==> e.frame % 512 == 0) && (x.Level() == 2 ==> e.frame % 262144 == 0 && !e.u))
    && (e.p && e.u && x.Below? ==> Entry(m, d, x.up, x.slot).u)
  }

  lemma PokeEntry(m: Mem, d: Dir, x: Pos, i: nat, e: Pte)
    requires Space(m, d) && x in d && i < 512
    ensures forall y, j :: Entry(Poke(m, d[x], i, e), d, y, j) == if y == x && j == i then e else Entry(m, d, y, j)
  {
  }

  lemma WriteKeepsSpace(m: Mem, d: Dir, x: Pos, i: nat, e: Pte)
    requires Space(m, d) && x in d && i < 512 && MayWrite(m, d, x, i, e)
    ensures Space(Poke(m, d[x], i, e), d)
  {
    var m' := Poke(m, d[x], i, e);
    PokeEntry(m, d, x, i, e);
    assert EntryOk(m, d, x, i);
    forall y, j | y in d && 0 <= j < 512
      ensures EntryOk(m', d, y, j)
    {
      assert EntryOk(m, d, y, j);
      assert y.Below? ==> Child(y.up, y.slot) == y;
    }
  }

  /** Overwriting one entry changes the translation of the pages it translates, and no other. */
  lemma WriteEntry(m: Mem, d: Dir, x: Pos, i: nat, e: Pte)
    requires Space(m, d) && x in d && i < 512 && MayWrite(m, d, x, i, e)
    ensures Space(Poke(m, d[x], i, e), d)
    ensures forall v ::
            View(Poke(m, d[x], i, e), d, v) == if Through(d, x, i, v) then Seen(e, x.Level(), v) else View(m, d, v)
  {
    WriteKeepsSpace(m, d, x, i, e);
    PokeEntry(m, d, x, i, e);
  }

  /** Frame `f` holds none of the tables. */
  ghost predicate Outside(d: Dir, f: nat)
  {
    forall y :: y in d ==> d[y] != f
  }

  /** Entry `i` of the table at `x` may become the link `e` to the table in frame `f`. */
  ghost predicate MayHang(m: Mem, d: Dir, x: Pos, i: nat, f: nat, e: Pte)
    requires 0 <= x.Level() <= 3
  {
    && x.Level() > 0 && f < |m| && Outside(d, f) && !IsLink(Entry(m, d, x, i), x.Level())
    && IsLink(e, x.Level()) && e.frame == f && e.w && !e.ps
    && (e.u && x.Below? ==> Entry(m, d, x.up, x.slot).u)
    && (forall j :: 0 <= j < 512 ==> MayHold(m[f][j], x.Level() - 1, e.u))
  }

  /** An entry a new table of level `l` may start with. */
  predicate MayHold(e: Pte, l: Level, user: bool)
  {
    && !IsLink(e, l) && (e.p && e.u ==> user) && (e.p && l > 0 ==> e.w)
    && (e.p ==> (l == 1 ==> e.frame % 512 == 0) && (l == 2 ==> e.frame % 262144 == 0 && !e.u))
  }

  lemma HangEntry(m: Mem, d: Dir, x: Pos, i: nat, f: nat, e: Pte)
    requires Space(m, d) && x in d && i < 512 && MayHang(m, d, x, i, f, e)
    ensures Child(x, i) !in d
    ensures forall j: nat :: j < 512 ==> Entry(Poke(m, d[x], i, e), d[Child(x, i) := f], Child(x, i), j) == m[f][j]
    ensures forall y, j: nat :: y in d ==>
      Entry(Poke(m, d[x], i, e), d[Child(x, i) := f], y, j) == if y == x && j == i then e else Entry(m, d, y, j)
  {
    assert EntryOk(m, d, x, i);
  }

  lemma HangKeepsSpace(m: Mem, d: Dir, x: Pos, i: nat, f: nat, e: Pte)
    requires Space(m, d) && x in d && i < 512 && MayHang(m, d, x, i, f, e)
    ensures Space(Poke(m, d[x], i, e), d[Child(x, i) := f])
  {
    var c := Child(x, i);
    var m', d' := Poke(m, d[x], i, e), d[c := f];
    HangEntry(m, d, x, i, f, e);
    forall y, j | y in d' && 0 <= j < 512
      ensures EntryOk(m', d', y, j)
    {
      if y == c {
        assert MayHold(m[f][j], c.Level(), e.u);
        assert Child(c, j).up == c;
      } else {
        assert EntryOk(m, d, y, j);
        assert y.Below? ==> Child(y.up, y.slot) == y;
      }
    }
  }

  /** A page that was translated by the entry is now translated by the new table; every other
      page keeps its translation. */
  lemma HangTable(m: Mem, d: Dir, x: Pos, i: nat, f: nat, e: Pte)
    requires Space(m, d) && x in d && i < 512 && MayHang(m, d, x, i, f, e)
    ensures Space(Poke(m, d[x], i, e), d[Child(x, i) := f])
    ensures forall v :: View(Poke(m, d[x], i, e), d[Child(x, i) := f], v) ==
                        if Through(d, x, i, v) then Seen(m[f][Idx(v, x.Level() - 1)], x.Level() - 1, v)
                          else View(m, d, v)
  {
    HangKeepsSpace(m, d, x, i, f, e);
    forall v: Page
      ensures View(Poke(m, d[x], i, e), d[Child(x, i) := f], v) ==
              if Through(d, x, i, v) then Seen(m[f][Idx(v, x.Level() - 1)], x.Level() - 1, v) else View(m, d, v)
    {
      HangView(m, d, x, i, f, e, v);
    }
  }

  lemma HangView(m: Mem, d: Dir, x: Pos, i: nat, f: nat, e: Pte, v: Page)
    requires Space(m, d) && x in d && i < 512 && MayHang(m, d, x, i, f, e)
    ensures View(Poke(m, d[x], i, e), d[Child(x, i) := f], v) ==
            if Through(d, x, i, v) then Seen(m[f][Idx(v, x.Level() - 1)], x.Level() - 1, v) else View(m, d, v)
  {
    HangEntry(m, d, x, i, f, e);
    var c := Child(x, i);
    var d' := d[c := f];
    StepDown(m, d, v, Deep(d, v));
    hide Space, EntryOk, MayHang, Entry;
    if Through(d, x, i, v) {
      assert At(v, x.Level() - 1) == c;
      assert Deep(d', v) == x.Level() - 1;
    } else {
      assert Deep(d', v) == Deep(d, v);
    }
  }

  /** `d` without the table at `c`. */
  function Without(d: Dir, c: Pos): (r: Dir)
    ensures forall x :: x in r <==> x in d && x != c
    ensures forall x :: x in r ==> r[x] == d[x]
  {
    map x | x in d && x != c :: d[x]
  }

  /** The table at `c` has no present entry. */
  predicate IsEmpty(m: Mem, d: Dir, c: Pos)
  {
    c in d && d[c] < |m| && forall j :: 0 <= j < 512 ==> !m[d[c]][j].p
  }

  lemma DropKeepsSpace(m: Mem, d: Dir, x: Pos, i: nat)
    requires Space(m, d) && x in d && i < 512 && IsEmpty(m, d, Child(x, i))
    ensures Space(Poke(m, d[x], i, ZERO), Without(d, Child(x, i)))
  {
    var c := Child(x, i);
    var m', d' := Poke(m, d[x], i, ZERO), Without(d, c);
    PokeEntry(m, d, x, i, ZERO);
    assert EntryOk(m, d, x, i);
    forall y | y in d && y.Below?
      ensures y.up != c
    {
      assert EntryOk(m, d, y.up, y.slot) && Child(y.up, y.slot) == y;
    }
    forall y, j | y in d' && 0 <= j < 512
      ensures EntryOk(m', d', y, j)
    {
      assert EntryOk(m, d, y, j);
      assert y.Below? ==> Child(y.up, y.slot) == y;
    }
  }

  /** Unhooking an empty table changes no translation. */
  lemma DropTable(m: Mem, d: Dir, x: Pos, i: nat)
    requires Space(m, d) && x in d && i < 512 && IsEmpty(m, d, Child(x, i))
    ensures Space(Poke(m, d[x], i, ZERO), Without(d, Child(x, i)))
    ensures forall v :: View(Poke(m, d[x], i, ZERO), Without(d, Child(x, i)), v) == View(m, d, v)
  {
    var c := Child(x, i);
    var m', d' := Poke(m, d[x], i, ZERO), Without(d, c);
    DropKeepsSpace(m, d, x, i);
    forall v: Page
      ensures View(m', d', v) == View(m, d, v)
    {
      DropView(m, d, x, i, v);
    }
  }

  lemma DropView(m: Mem, d: Dir, x: Pos, i: nat, v: Page)
    requires Space(m, d) && x in d && i < 512 && IsEmpty(m, d, Child(x, i))
    requires Space(Poke(m, d[x], i, ZERO), Without(d, Child(x, i)))
    ensures View(Poke(m, d[x], i, ZERO), Without(d, Child(x, i)), v) == View(m, d, v)
  {
    var c := Child(x, i);
    var m', d' := Poke(m, d[x], i, ZERO), Without(d, c);
    PokeEntry(m, d, x, i, ZERO);
    if At(v, Deep(d, v)) == c {
      assert At(v, x.Level()) == x && Idx(v, x.Level()) == i;
      DeepIsLast(m', d', v, x.Level());
    } else {
      forall y | y in d && y.Below?
        ensures y.up != c
      {
        assert EntryOk(m, d, y.up, y.slot) && Child(y.up, y.slot) == y;
      }
      DeepKept(m, d, v, c);
      StepDown(m, d, v, Deep(d, v));
    }
  }

  lemma DeepKept(m: Mem, d: Dir, v: Page, c: Pos)
    requires Space(m, d) && At(v, Deep(d, v)) != c && c != Top
    requires forall y :: y in d && y.Below? ==> y.up != c
    ensures Deep(Without(d, c), v) == Deep(d, v)
  {
  }

  /** A leaf of a PT translates exactly one page. */
  lemma ThroughLeaf(d: Dir, v: Page)
    requires At(v, 0) in d
    ensures forall x :: Through(d, At(v, 0), v.i1, x) <==> x == v
  {
  }

  // ----- spaces that keep what another one has -----

  /** Every table and every leaf of `d0` is still there in `d`. */
  ghost predicate Anchored(m0: Mem, d0: Dir, m: Mem, d: Dir)
  {
    && (forall x :: x in d0 ==> x in d && d[x] == d0[x])
    && (forall x, i :: x in d0 && 0 <= x.Level() <= 3 && 0 <= i < 512 && IsLeaf(Entry(m0, d0, x, i), x.Level()) ==>
          IsLeaf(Entry(m, d, x, i), x.Level()))
  }

  /** No table but perhaps the one at `c`, and the PML4, is empty. */
  ghost predicate NoEmptyBut(m: Mem, d: Dir, c: Pos)
  {
    forall x :: x in d && x.Below? && x != c ==> !IsEmpty(m, d, x)
  }

  /** The only tables `d` has beyond `d0` are on the path of `v`. */
  ghost predicate OnlyOnPath(d0: Dir, d: Dir, v: Page)
  {
    forall x :: x in d && x !in d0 ==> x == At(v, 0) || x == At(v, 1) || x == At(v, 2)
  }

  lemma AnchoredTrans(m0: Mem, d0: Dir, m1: Mem, d1: Dir, m2: Mem, d2: Dir)
    requires Anchored(m0, d0, m1, d1) && Anchored(m1, d1, m2, d2)
    ensures Anchored(m0, d0, m2, d2)
  {
  }

  /** Changing one entry that is no leaf keeps every leaf. */
  lemma AnchoredBut(m: Mem, d: Dir, m': Mem, d': Dir, x: Pos, i: nat)
    requires Space(m, d) && x in d && i < 512 && |m'| == |m| && !IsLeaf(Entry(m, d, x, i), x.Level())
    requires forall y :: y in d ==> y in d' && d'[y] == d[y]
    requires forall y :: y in d ==> m'[d[y]] == if y == x then m[d[y]][i := m'[d[y]][i]] else m[d[y]]
    ensures Anchored(m, d, m', d')
  {
  }

  /** So does a change at an entry where the earlier space has no leaf. */
  lemma AnchoredLess(m0: Mem, d0: Dir, m: Mem, d: Dir, m': Mem, d': Dir, x: Pos, i: nat)
    requires Anchored(m0, d0, m, d) && 0 <= x.Level() <= 3 && !IsLeaf(Entry(m0, d0, x, i), x.Level())
    requires forall y :: y in d0 ==> y in d' && d'[y] == d[y]
    requires forall y, j: nat :: y in d0 && (y, j) != (x, i) ==> Entry(m', d', y, j) == Entry(m, d, y, j)
    ensures Anchored(m0, d0, m', d')
  {
  }

  lemma EntryKept(m0: Mem, d0: Dir, m: Mem, d: Dir, x: Pos, i: nat)
    requires Space(m0, d0) && Space(m, d) && Anchored(m0, d0, m, d) && x in d0 && i < 512 && Entry(m0, d0, x, i).p
    ensures Entry(m, d, x, i).p
  {
    assert EntryOk(m0, d0, x, i) && EntryOk(m, d, x, i);
  }

  /** Mapping a page leaves no table empty. */
  lemma GrownNoEmpty(m0: Mem, d0: Dir, m: Mem, d: Dir, v: Page)
    requires Space(m0, d0) && Space(m, d) && Anchored(m0, d0, m, d) && OnlyOnPath(d0, d, v) && NoEmptyBut(m0, d0, Top)
    requires At(v, 0) in d && Entry(m, d, At(v, 0), v.i1).p
    ensures NoEmptyBut(m, d, Top)
  {
    forall x | x in d && x.Below?
      ensures !IsEmpty(m, d, x)
    {
      if x in d0 {
        var i :| 0 <= i < 512 && m0[d0[x]][i].p;
        EntryKept(m0, d0, m, d, x, i);
      } else {
        PathNotEmpty(m, d, v);
      }
    }
  }

  lemma PathNotEmpty(m: Mem, d: Dir, v: Page)
    requires Space(m, d) && At(v, 0) in d && Entry(m, d, At(v, 0), v.i1).p
    ensures !IsEmpty(m, d, At(v, 0)) && !IsEmpty(m, d, At(v, 1)) && !IsEmpty(m, d, At(v, 2))
  {
    assert At(v, 0).up == At(v, 1) && At(v, 1).up == At(v, 2);
    StepDown(m, d, v, 0);
    StepDown(m, d, v, 1);
    StepDown(m, d, v, 2);
  }

  /** If nothing more is mapped in `d` than in `d0`, it has no more tables either. */
  lemma SameTables(m0: Mem, d0: Dir, m: Mem, d: Dir)
    requires Space(m0, d0) && Space(m, d) && Anchored(m0, d0, m, d) && NoEmptyBut(m, d, Top) && SameViews(m0, d0, m, d)
    ensures d == d0
  {
    forall x | x in d
      ensures x in d0
    {
      if x !in d0 {
        var v := PageBelow(m, d, x);
        NotAnchored(m0, d0, m, d, v, x.Level());
      }
    }
  }

  /** Some mapped page lies below every table. */
  lemma {:induction false} PageBelow(m: Mem, d: Dir, x: Pos) returns (v: Page)
    requires Space(m, d) && NoEmptyBut(m, d, Top) && x in d && x != Top
    ensures At(v, x.Level()) == x && View(m, d, v).Some?
    decreases x.Level()
  {
    assert !IsEmpty(m, d, x);
    var i :| 0 <= i < 512 && m[d[x]][i].p;
    assert EntryOk(m, d, x, i);
    if IsLink(m[d[x]][i], x.Level()) {
      v := PageBelow(m, d, Child(x, i));
    } else {
      v := PageThrough(m, d, x, i);
      DeepIsLast(m, d, v, x.Level());
    }
  }

  lemma PageThrough(m: Mem, d: Dir, x: Pos, i: nat) returns (v: Page)
    requires Space(m, d) && x in d && x != Top && i < 512
    ensures At(v, x.Level()) == x && Idx(v, x.Level()) == i
  {
    assert x.up in d;
    if x.up == Top {
      v := VPage(x.slot, i, 0, 0);
    } else {
      assert x.up.up in d;
      if x.up.up == Top {
        v := VPage(x.up.slot, x.slot, i, 0);
      } else {
        assert x.up.up.up in d;
        v := VPage(x.up.up.slot, x.up.slot, x.slot, i);
      }
    }
  }

  lemma NotAnchored(m0: Mem, d0: Dir, m: Mem, d: Dir, v: Page, l: Level)
    requires Space(m0, d0) && Space(m, d) && Anchored(m0, d0, m, d) && View(m, d, v) == View(m0, d0, v) &&
             View(m, d, v).Some?
    requires At(v, l) in d
    ensures At(v, l) in d0
  {
    assert At(v, 0).up == At(v, 1) && At(v, 1).up == At(v, 2);
    var l0 := Deep(d0, v);
    StepDown(m0, d0, v, l0);
    StepDown(m, d, v, l0);
  }
}
