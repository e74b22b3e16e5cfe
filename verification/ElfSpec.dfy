/** What loading a program's segments does to the memory the program sees (kernel/proc/elf.c). */
module ElfSpec {
  import opened Tiny
  import opened PageTables
  import opened PhysMem
  import opened VmSpec
  import opened VmRange

  /** The pages one load has mapped, by page number, and the frames they got. */
  type Pages = map<nat, nat>

  /** Page `q` is mapped for the user to a frame that holds no table. */
  ghost predicate PageIn(s: Sys, d: Dir, h: Pages, q: nat)
  {
    q in h ==> q < PAGES && 0 < h[q] < |s.data| && h[q] < |s.used| && s.used[h[q]] && Outside(d, h[q])
               && View(s.m, d, PageNo(q)) == Some(Leaf(h[q], true, true))
  }

  ghost predicate Apart(h: Pages, q: nat, r: nat)
  {
    q in h && r in h && h[q] == h[r] ==> q == r
  }

  /** Every page of `h` has a frame to itself. */
  ghost predicate Loaded(s: Sys, d: Dir, h: Pages)
  {
    && (forall q: nat {:trigger PageIn(s, d, h, q)} :: PageIn(s, d, h, q))
    && (forall q: nat, r: nat {:trigger Apart(h, q, r)} :: Apart(h, q, r))
  }

  /** The byte at address `a`; one on a page not yet mapped counts as zero. */
  ghost function At(s: Sys, h: Pages, a: nat): int
  {
    if a / 4096 in h && h[a / 4096] < |s.data| then s.data[h[a / 4096]][a % 4096] as int else 0
  }

  /** The bytes `b` are at address `lo` now; all others are as they were. */
  ghost predicate Put(s: Sys, h: Pages, s': Sys, h': Pages, lo: nat, b: seq<byte>)
  {
    forall a: nat {:trigger At(s', h', a)} ::
      At(s', h', a) == if lo <= a < lo + |b| then b[a - lo] as int else At(s, h, a)
  }

  lemma PutNone(s: Sys, h: Pages, lo: nat)
    ensures Put(s, h, s, h, lo, [])
  {
  }

  lemma PutMore(s: Sys, h: Pages, s1: Sys, h1: Pages, s2: Sys, h2: Pages, lo: nat, b: seq<byte>, c: seq<byte>)
    requires Put(s, h, s1, h1, lo, b) && Put(s1, h1, s2, h2, lo + |b|, c)
    ensures Put(s, h, s2, h2, lo, b + c)
  {
    forall a: nat
      ensures At(s2, h2, a) == if lo <= a < lo + |b + c| then (b + c)[a - lo] as int else At(s, h, a)
    {
      assert At(s1, h1, a) == if lo <= a < lo + |b| then b[a - lo] as int else At(s, h, a);
    }
  }

  /** No byte changes, then a write. */
  lemma PutThen(s: Sys, h: Pages, s1: Sys, h1: Pages, s2: Sys, h2: Pages, lo: nat, b: seq<byte>)
    requires Put(s, h, s1, h1, 0, []) && Put(s1, h1, s2, h2, lo, b)
    ensures Put(s, h, s2, h2, lo, b)
  {
    forall a: nat
      ensures At(s2, h2, a) == if lo <= a < lo + |b| then b[a - lo] as int else At(s, h, a)
    {
      assert At(s1, h1, a) == At(s, h, a);
    }
  }

  // ----- the rest of the system -----

  ghost predicate OldTable(s0: Sys, d0: Dir, d: Dir, x: Pos)
  {
    x in d ==> (x in d0 && d[x] == d0[x]) || (x !in d0 && d[x] < |s0.used| && !s0.used[d[x]])
  }

  ghost predicate KeptUsed(s0: Sys, s: Sys, f: nat)
  {
    f < |s0.used| && s0.used[f] ==> f < |s.used| && s.used[f]
  }

  /** Frame `f`, if it was in use and no table of this space, is as it was. */
  ghost predicate KeptFrame(s0: Sys, d0: Dir, s: Sys, f: nat)
  {
    f < |s0.used| && s0.used[f] && Outside(d0, f) ==>
      && (f < |s0.m| ==> f < |s.m| && s.m[f] == s0.m[f])
      && (f < |s0.data| ==> f < |s.data| && s.data[f] == s0.data[f])
      && (f < |s0.refs| ==> f < |s.refs| && s.refs[f] == s0.refs[f])
  }

  ghost predicate SameElse(s0: Sys, d0: Dir, s: Sys, d: Dir, h: Pages, v: Page)
  {
    View(s.m, d, v) == View(s0.m, d0, v) || exists q: nat :: q in h && PageNo(q) == v
  }

  ghost predicate NewFrame(s0: Sys, h: Pages, q: nat)
  {
    q in h ==> h[q] < |s0.used| && !s0.used[h[q]]
  }

  /** Since `s0` the load has changed the pages of `h`, given tables to its own space, and touched
      nothing else that was in use. */
  ghost predicate Confined(s0: Sys, d0: Dir, s: Sys, d: Dir, h: Pages)
  {
    && (forall x: Pos {:trigger OldTable(s0, d0, d, x)} :: OldTable(s0, d0, d, x))
    && (forall x: Pos :: x in d0 ==> x in d)
    && (forall f: nat {:trigger KeptUsed(s0, s, f)} :: KeptUsed(s0, s, f))
    && (forall f: nat {:trigger KeptFrame(s0, d0, s, f)} :: KeptFrame(s0, d0, s, f))
    && (forall q: nat {:trigger NewFrame(s0, h, q)} :: NewFrame(s0, h, q))
    && (forall v: Page {:trigger SameElse(s0, d0, s, d, h, v)} :: SameElse(s0, d0, s, d, h, v))
  }

  // ----- mapping one page -----

  ghost predicate MapsPage(s: Sys, d: Dir, h: Pages, q: nat, f: nat, s1: Sys, s2: Sys, d2: Dir)
  {
    && Sane(s) && Owned(s, d) && Loaded(s, d, h) && q !in h && q < PAGES && f != 0 && TakenPage(s, f, s1)
    && Mapped(s1, d, s2, d2, PageNo(q), MapLeaf(f, UserFlags()))
  }

  /** P, W and U. */
  function UserFlags(): Pte
  {
    ZERO.(p := true, w := true, u := true)
  }

  lemma PageNoInj(q: nat, r: nat)
    requires q < PAGES && r < PAGES && PageNo(q) == PageNo(r)
    ensures q == r
  {
    if q < r { PagesDistinct(0, q, r); } else if r < q { PagesDistinct(0, r, q); }
  }

  /** The pages mapped before keep their frames. */
  lemma MapPageIn(s: Sys, d: Dir, h: Pages, q: nat, f: nat, s1: Sys, s2: Sys, d2: Dir, r: nat)
    requires MapsPage(s, d, h, q, f, s1, s2, d2)
    ensures PageIn(s2, d2, h[q := f], r) && (r in h ==> h[r] != f)
  {
    hide PageNo, View, Space;
    assert PageIn(s, d, h, r);
    if r in h {
      GrownKeeps(s1, d, s2, d2, h[r]);
      if PageNo(r) == PageNo(q) { PageNoInj(r, q); }
    }
    if r == q {
      assert Outside(d, f);
      GrownKeeps(s1, d, s2, d2, f);
    }
  }

  lemma MapLoaded(s: Sys, d: Dir, h: Pages, q: nat, f: nat, s1: Sys, s2: Sys, d2: Dir)
    requires MapsPage(s, d, h, q, f, s1, s2, d2)
    ensures Loaded(s2, d2, h[q := f])
  {
    hide PageNo, View, Space, MapsPage;
    var h2 := h[q := f];
    forall r: nat
      ensures PageIn(s2, d2, h2, r)
    {
      MapPageIn(s, d, h, q, f, s1, s2, d2, r);
    }
    forall r: nat, t: nat
      ensures Apart(h2, r, t)
    {
      MapPageIn(s, d, h, q, f, s1, s2, d2, r);
      MapPageIn(s, d, h, q, f, s1, s2, d2, t);
      MapsApart(s, d, h, q, f, s1, s2, d2, r, t);
    }
  }

  lemma MapsApart(s: Sys, d: Dir, h: Pages, q: nat, f: nat, s1: Sys, s2: Sys, d2: Dir, r: nat, t: nat)
    requires MapsPage(s, d, h, q, f, s1, s2, d2)
    ensures Apart(h, r, t)
  {
  }

  /** A page that is mapped changes no byte: it is zero, and no other frame is written. */
  lemma MapPut(s: Sys, d: Dir, h: Pages, q: nat, f: nat, s1: Sys, s2: Sys, d2: Dir)
    requires MapsPage(s, d, h, q, f, s1, s2, d2)
    ensures Put(s, h, s2, h[q := f], 0, [])
  {
    hide PageNo, View, Space;
    forall a: nat
      ensures At(s2, h[q := f], a) == At(s, h, a)
    {
      MapPageIn(s, d, h, q, f, s1, s2, d2, a / 4096);
      assert PageIn(s, d, h, a / 4096);
      assert s2.data == s.data[f := ZeroBytes()];
    }
  }

  lemma MapConfined(s0: Sys, d0: Dir, s: Sys, d: Dir, h: Pages, q: nat, f: nat, s1: Sys, s2: Sys, d2: Dir)
    requires MapsPage(s, d, h, q, f, s1, s2, d2) && Confined(s0, d0, s, d, h) &&
             |s0.used| == |s.used| == |s0.m| == |s0.data| == |s0.refs|
    ensures Confined(s0, d0, s2, d2, h[q := f])
  {
    hide PageNo, View, Space, Sane, Loaded;
    var h2 := h[q := f];
    forall x: Pos
      ensures OldTable(s0, d0, d2, x)
    {
      assert OldTable(s0, d0, d, x);
      if x in d2 && x !in d { assert KeptUsed(s0, s, d2[x]); }
    }
    forall g: nat
      ensures KeptUsed(s0, s2, g) && KeptFrame(s0, d0, s2, g)
    {
      MapKept(s0, d0, s, d, h, q, f, s1, s2, d2, g);
    }
    forall r: nat
      ensures NewFrame(s0, h2, r)
    {
      assert NewFrame(s0, h, r) && KeptUsed(s0, s, f);
    }
    forall v: Page
      ensures SameElse(s0, d0, s2, d2, h2, v)
    {
      assert SameElse(s0, d0, s, d, h, v);
      if v == PageNo(q) {
        assert q in h2;
      } else if r: nat :| r in h && PageNo(r) == v {
        assert r in h2;
      }
    }
  }

  lemma MapKept(s0: Sys, d0: Dir, s: Sys, d: Dir, h: Pages, q: nat, f: nat, s1: Sys, s2: Sys, d2: Dir, g: nat)
    requires MapsPage(s, d, h, q, f, s1, s2, d2) && Confined(s0, d0, s, d, h) &&
             |s0.used| == |s.used| == |s0.m| == |s0.data| == |s0.refs|
    ensures KeptUsed(s0, s2, g) && KeptFrame(s0, d0, s2, g)
  {
    hide PageNo, View, Space, Loaded;
    assert KeptUsed(s0, s, g) && KeptFrame(s0, d0, s, g);
    if g < |s0.used| && s0.used[g] {
      assert g != f;
      GrownKeeps(s1, d, s2, d2, g);
      if Outside(d0, g) {
        forall x: Pos | x in d
          ensures d[x] != g
        {
          assert OldTable(s0, d0, d, x);
        }
      }
    }
  }

  /** Mapping one page more: all of it. */
  lemma MapsAll(s0: Sys, d0: Dir, s: Sys, d: Dir, h: Pages, q: nat, f: nat, s1: Sys, s2: Sys, d2: Dir)
    requires MapsPage(s, d, h, q, f, s1, s2, d2) && Confined(s0, d0, s, d, h) && Sane(s0) && |s0.m| == |s.m| && Top in d
    ensures Loaded(s2, d2, h[q := f]) && Put(s, h, s2, h[q := f], 0, []) && Confined(s0, d0, s2, d2, h[q := f])
    ensures Space(s2.m, d2) && Owned(s2, d2) && Top in d2 && d2[Top] == d[Top]
  {
    hide Confined, Loaded, Put, Space, PageNo, View;
    MapLoaded(s, d, h, q, f, s1, s2, d2);
    MapPut(s, d, h, q, f, s1, s2, d2);
    MapConfined(s0, d0, s, d, h, q, f, s1, s2, d2);
  }

  // ----- writing bytes -----

  /** The frame of page `q` written from offset `i` on. */
  function Wrote(s: Sys, f: nat, i: nat, b: seq<byte>): Sys
    requires f < |s.data| && i + |b| <= 4096
  {
    Sys(s.m, s.data[f := Overlay(s.data[f], i, b)], s.used, s.refs)
  }

  lemma WriteLoaded(s: Sys, d: Dir, h: Pages, q: nat, i: nat, b: seq<byte>)
    requires Loaded(s, d, h) && q in h && h[q] < |s.data| && i + |b| <= 4096
    ensures Loaded(Wrote(s, h[q], i, b), d, h)
  {
    hide View, PageNo;
    var s' := Wrote(s, h[q], i, b);
    forall r: nat
      ensures PageIn(s', d, h, r)
    {
      assert PageIn(s, d, h, r);
    }
  }

  lemma WritePut(s: Sys, d: Dir, h: Pages, q: nat, i: nat, b: seq<byte>)
    requires Loaded(s, d, h) && q in h && h[q] < |s.data| && i + |b| <= 4096
    ensures Put(s, h, Wrote(s, h[q], i, b), h, q * 4096 + i, b)
  {
    hide View, PageNo;
    var s', lo := Wrote(s, h[q], i, b), q * 4096 + i;
    forall a: nat
      ensures At(s', h, a) == if lo <= a < lo + |b| then b[a - lo] as int else At(s, h, a)
    {
      assert Apart(h, q, a / 4096);
      assert a == a / 4096 * 4096 + a % 4096;
      InPage(q, i, |b|, a);
    }
  }

  /** The addresses of a piece of one page. */
  lemma InPage(q: nat, i: nat, n: nat, a: nat)
    requires i + n <= 4096
    ensures q * 4096 + i <= a < q * 4096 + i + n <==> a / 4096 == q && i <= a % 4096 < i + n
    ensures a / 4096 == q ==> a - (q * 4096 + i) == a % 4096 - i
  {
  }

  lemma WriteConfined(s0: Sys, d0: Dir, s: Sys, d: Dir, h: Pages, q: nat, i: nat, b: seq<byte>)
    requires Confined(s0, d0, s, d, h) && q in h && h[q] < |s.data| && i + |b| <= 4096
    ensures Confined(s0, d0, Wrote(s, h[q], i, b), d, h)
  {
    hide View, PageNo;
    var s' := Wrote(s, h[q], i, b);
    forall f: nat
      ensures KeptUsed(s0, s', f) && KeptFrame(s0, d0, s', f)
    {
      assert KeptUsed(s0, s, f) && KeptFrame(s0, d0, s, f) && NewFrame(s0, h, q);
    }
    forall v: Page
      ensures SameElse(s0, d0, s', d, h, v)
    {
      assert SameElse(s0, d0, s, d, h, v);
    }
  }

  lemma Writes(s0: Sys, d0: Dir, s: Sys, d: Dir, h: Pages, q: nat, i: nat, b: seq<byte>)
    requires Loaded(s, d, h) && Confined(s0, d0, s, d, h) && q in h && i + |b| <= 4096
    ensures h[q] < |s.data| && Loaded(Wrote(s, h[q], i, b), d, h) && Put(s, h, Wrote(s, h[q], i, b), h, q * 4096 + i, b)
    ensures Confined(s0, d0, Wrote(s, h[q], i, b), d, h)
  {
    assert PageIn(s, d, h, q);
    hide Loaded, Confined, Put, Overlay;
    WriteLoaded(s, d, h, q, i, b);
    WritePut(s, d, h, q, i, b);
    WriteConfined(s0, d0, s, d, h, q, i, b);
  }

  // ----- segments -----

  datatype Kind = Load | Phdr | Other

  /** A program header. */
  datatype Ph = Ph(kind: Kind, off: nat, vaddr: nat, filesz: nat, memsz: nat)

  predicate Counts(ph: Ph)
  {
    ph.kind == Load && ph.memsz != 0
  }

  predicate InFile(img: seq<byte>, ph: Ph)
  {
    ph.filesz <= ph.memsz && (ph.filesz == 0 || ph.off + ph.filesz <= |img|)
  }

  predicate FitsFile(img: seq<byte>, ph: Ph)
  {
    Counts(ph) ==> InFile(img, ph)
  }

  predicate Covers(ph: Ph, bias: nat, a: nat)
  {
    Counts(ph) && ph.vaddr + bias <= a < ph.vaddr + bias + ph.memsz
  }

  /** Byte `j` of a segment: what the file has, then zeros. */
  function ByteOf(img: seq<byte>, ph: Ph, j: nat): int
    requires InFile(img, ph)
  {
    if j < ph.filesz then img[ph.off + j] as int else 0
  }

  /** The bytes of one segment are at `lo` now; all others are as they were. */
  ghost predicate Laid(s: Sys, h: Pages, s': Sys, h': Pages, lo: nat, img: seq<byte>, ph: Ph)
  {
    && InFile(img, ph)
    && forall a: nat {:trigger At(s', h', a)} ::
         At(s', h', a) == if lo <= a < lo + ph.memsz then ByteOf(img, ph, a - lo) else At(s, h, a)
  }

  /** Written as map_segment does: the file's part and then the zeros. */
  lemma LaidBy(s: Sys, h: Pages, s': Sys, h': Pages, lo: nat, img: seq<byte>, ph: Ph, b: seq<byte>, z: seq<byte>)
    requires Put(s, h, s', h', lo, b + z) && InFile(img, ph) && |b| == ph.filesz && |b + z| == ph.memsz
    requires forall j :: 0 <= j < |b| ==> b[j] == img[ph.off + j]
    requires forall j :: 0 <= j < |z| ==> z[j] == 0
    ensures Laid(s, h, s', h', lo, img, ph)
  {
    forall a: nat
      ensures At(s', h', a) == if lo <= a < lo + ph.memsz then ByteOf(img, ph, a - lo) else At(s, h, a)
    {
    }
  }

  /** No byte changes, then a segment. */
  lemma LaidThen(s: Sys, h: Pages, s1: Sys, h1: Pages, s2: Sys, h2: Pages, lo: nat, img: seq<byte>, ph: Ph)
    requires Put(s, h, s1, h1, 0, []) && Laid(s1, h1, s2, h2, lo, img, ph)
    ensures Laid(s, h, s2, h2, lo, img, ph)
  {
    forall a: nat
      ensures At(s2, h2, a) == if lo <= a < lo + ph.memsz then ByteOf(img, ph, a - lo) else At(s, h, a)
    {
      assert At(s1, h1, a) == At(s, h, a);
    }
  }

  /** The byte the first `k` segments ask for at `a`: the last one that covers it decides. */
  function Want(img: seq<byte>, phs: seq<Ph>, bias: nat, k: nat, a: nat): int
    requires k <= |phs| && forall i :: 0 <= i < k ==> FitsFile(img, phs[i])
  {
    if k == 0 then 0
    else if Covers(phs[k - 1], bias, a) then assert FitsFile(img, phs[k - 1]);
      ByteOf(img, phs[k - 1], a - phs[k - 1].vaddr - bias)
    else Want(img, phs, bias, k - 1, a)
  }

  /** No byte is in two segments. */
  ghost predicate Disjoint(phs: seq<Ph>, bias: nat)
  {
    forall i, j, a {:trigger Covers(phs[i], bias, a), Covers(phs[j], bias, a)} ::
      0 <= i < |phs| && 0 <= j < |phs| && Covers(phs[i], bias, a) && Covers(phs[j], bias, a) ==> i == j
  }

  /** Segments that do not overlap are all wanted as they are. */
  lemma {:induction false} WantDisjoint(img: seq<byte>, phs: seq<Ph>, bias: nat, k: nat, i: nat, a: nat)
    requires Disjoint(phs, bias) && i < k <= |phs| && Covers(phs[i], bias, a)
    requires forall j :: 0 <= j < k ==> FitsFile(img, phs[j])
    ensures FitsFile(img, phs[i]) && Want(img, phs, bias, k, a) == ByteOf(img, phs[i], a - phs[i].vaddr - bias)
    decreases k
  {
    if i < k - 1 {
      assert !Covers(phs[k - 1], bias, a);
      WantDisjoint(img, phs, bias, k - 1, i, a);
    }
  }

  /** The pages the first `k` segments touch. */
  ghost predicate Touches(phs: seq<Ph>, bias: nat, k: nat, q: nat)
  {
    exists i ::
      0 <= i < k <= |phs| && Counts(phs[i]) &&
      (phs[i].vaddr + bias) / 4096 <= q < (phs[i].vaddr + bias + phs[i].memsz + 4095) / 4096
  }

  ghost predicate TouchedIn(phs: seq<Ph>, bias: nat, k: nat, h0: Pages, h: Pages, q: nat)
  {
    q in h <==> q in h0 || Touches(phs, bias, k, q)
  }

  /** What the first `k` segments leave on top of what was there. */
  ghost predicate Image(img: seq<byte>, phs: seq<Ph>, bias: nat, k: nat, s0: Sys, h0: Pages, s: Sys, h: Pages)
  {
    && k <= |phs| && (forall i :: 0 <= i < k ==> FitsFile(img, phs[i]))
    && (forall q: nat {:trigger TouchedIn(phs, bias, k, h0, h, q)} :: TouchedIn(phs, bias, k, h0, h, q))
    && (forall a: nat {:trigger At(s, h, a)} ::
         At(s, h, a) == if CoveredBy(phs, bias, k, a) then Want(img, phs, bias, k, a) else At(s0, h0, a))
  }

  ghost predicate CoveredBy(phs: seq<Ph>, bias: nat, k: nat, a: nat)
  {
    exists i :: 0 <= i < k <= |phs| && Covers(phs[i], bias, a)
  }

  lemma ImageNone(img: seq<byte>, phs: seq<Ph>, bias: nat, s: Sys, h: Pages)
    ensures Image(img, phs, bias, 0, s, h, s, h)
  {
    forall q: nat
      ensures TouchedIn(phs, bias, 0, h, h, q)
    {
    }
  }

  lemma ImageSkip(img: seq<byte>, phs: seq<Ph>, bias: nat, k: nat, s0: Sys, h0: Pages, s: Sys, h: Pages)
    requires Image(img, phs, bias, k, s0, h0, s, h) && k < |phs| && !Counts(phs[k])
    ensures Image(img, phs, bias, k + 1, s0, h0, s, h)
  {
    var n := k + 1;
    forall q: nat
      ensures TouchedIn(phs, bias, n, h0, h, q)
    {
      assert TouchedIn(phs, bias, k, h0, h, q);
      TouchesNext(phs, bias, k, q);
    }
    forall a: nat
      ensures At(s, h, a) == if CoveredBy(phs, bias, k + 1, a) then Want(img, phs, bias, k + 1, a) else At(s0, h0, a)
    {
      CoveredNext(phs, bias, k, a);
    }
  }

  lemma TouchesNext(phs: seq<Ph>, bias: nat, k: nat, q: nat)
    requires k < |phs|
    ensures Touches(phs, bias, k + 1, q) <==>
            Touches(phs, bias, k, q) ||
            (Counts(phs[k]) && (phs[k].vaddr + bias) / 4096 <= q < (phs[k].vaddr + bias + phs[k].memsz + 4095) / 4096)
  {
    if Touches(phs, bias, k, q) {
      var i :| 0 <= i < k <= |phs| && Counts(phs[i]) &&
        (phs[i].vaddr + bias) / 4096 <= q < (phs[i].vaddr + bias + phs[i].memsz + 4095) / 4096;
      assert 0 <= i < k + 1 <= |phs|;
    }
  }

  lemma CoveredNext(phs: seq<Ph>, bias: nat, k: nat, a: nat)
    requires k < |phs|
    ensures CoveredBy(phs, bias, k + 1, a) <==> CoveredBy(phs, bias, k, a) || Covers(phs[k], bias, a)
  {
    if CoveredBy(phs, bias, k, a) {
      var i :| 0 <= i < k <= |phs| && Covers(phs[i], bias, a);
      assert 0 <= i < k + 1 <= |phs|;
    }
  }

  /** Segment `k` put on top. */
  lemma ImageMore(img: seq<byte>, phs: seq<Ph>, bias: nat, k: nat, s0: Sys, h0: Pages, s: Sys, h: Pages, s': Sys,
      h': Pages)
    requires Image(img, phs, bias, k, s0, h0, s, h) && k < |phs| && Counts(phs[k]) && FitsFile(img, phs[k])
    requires Laid(s, h, s', h', phs[k].vaddr + bias, img, phs[k])
    requires forall q: nat ::
             q in h' <==>
             q in h || (phs[k].vaddr + bias) / 4096 <= q < (phs[k].vaddr + bias + phs[k].memsz + 4095) / 4096
    ensures Image(img, phs, bias, k + 1, s0, h0, s', h')
  {
    var n := k + 1;
    forall q: nat
      ensures TouchedIn(phs, bias, n, h0, h', q)
    {
      assert TouchedIn(phs, bias, k, h0, h, q);
      TouchesNext(phs, bias, k, q);
    }
    forall a: nat
      ensures At(s', h', a) == if CoveredBy(phs, bias, k + 1, a) then Want(img, phs, bias, k + 1, a) else At(s0, h0, a)
    {
      CoveredNext(phs, bias, k, a);
      assert At(s, h, a) == if CoveredBy(phs, bias, k, a) then Want(img, phs, bias, k, a) else At(s0, h0, a);
    }
  }

  /** A byte of a mapped page, as the processor finds it. */
  ghost predicate Reads(s: Sys, d: Dir, a: nat, b: int)
    requires Top in d
  {
    exists f: nat ::
      f < |s.data| && Walk(s.m, d[Top], 3, PageOf(a)) == Some(Leaf(f, true, true)) && s.data[f][a % 4096] as int == b
  }

  lemma ReadsAt(s: Sys, d: Dir, h: Pages, a: nat)
    requires Loaded(s, d, h) && Space(s.m, d) && a / 4096 in h
    ensures Top in d && Reads(s, d, a, At(s, h, a))
  {
    hide PageNo, View, Walk;
    assert PageIn(s, d, h, a / 4096);
    WalkIsView(s.m, d, PageOf(a));
  }

  /** What a covered byte holds after a load without overlaps, and that its page is mapped. */
  lemma CoveredHolds(img: seq<byte>, phs: seq<Ph>, bias: nat, s0: Sys, h0: Pages, s: Sys, h: Pages, i: nat, a: nat)
    requires Image(img, phs, bias, |phs|, s0, h0, s, h) && Disjoint(phs, bias) && i < |phs| && Covers(phs[i], bias, a)
    ensures InFile(img, phs[i]) && a / 4096 in h && At(s, h, a) == ByteOf(img, phs[i], a - phs[i].vaddr - bias)
  {
    hide Want;
    assert FitsFile(img, phs[i]);
    WantDisjoint(img, phs, bias, |phs|, i, a);
    assert CoveredBy(phs, bias, |phs|, a);
    CoversPage(phs[i].vaddr + bias, phs[i].memsz, a);
    assert TouchedIn(phs, bias, |phs|, h0, h, a / 4096);
    assert At(s, h, a) == Want(img, phs, bias, |phs|, a);
  }

  /** A load is faithful: if no byte is in two segments, then through the page tables, as the processor
      walks them, every byte of every segment is writable user memory that holds the file's byte or, past
      the file's part, zero. */
  lemma ReadBack(img: seq<byte>, phs: seq<Ph>, bias: nat, s0: Sys, h0: Pages, s: Sys, d: Dir, h: Pages, i: nat, a: nat)
    requires Image(img, phs, bias, |phs|, s0, h0, s, h) && Loaded(s, d, h) && Space(s.m, d)
    requires Disjoint(phs, bias) && i < |phs| && Covers(phs[i], bias, a)
    ensures InFile(img, phs[i]) && Top in d
    ensures var j := a - phs[i].vaddr - bias;
            Reads(s, d, a, if j < phs[i].filesz then img[phs[i].off + j] as int else 0)
  {
    hide Image, Loaded, Space, Reads, Disjoint;
    CoveredHolds(img, phs, bias, s0, h0, s, h, i, a);
    ReadsAt(s, d, h, a);
  }

  /** The same for a program below the interpreter that was loaded after it. */
  lemma ReadBackBelow(img: seq<byte>, phs: seq<Ph>, bias: nat, s0: Sys, h0: Pages, s1: Sys, h1: Pages,
                      img2: seq<byte>, phs2: seq<Ph>, bias2: nat, s: Sys, d: Dir, h: Pages, i: nat, a: nat)
    requires Image(img, phs, bias, |phs|, s0, h0, s1, h1) && Image(img2, phs2, bias2, |phs2|, s1, h1, s, h)
    requires Loaded(s, d, h) && Space(s.m, d) && Disjoint(phs, bias) && i < |phs| && Covers(phs[i], bias, a) &&
             !CoveredBy(phs2, bias2, |phs2|, a)
    ensures InFile(img, phs[i]) && Top in d
    ensures var j := a - phs[i].vaddr - bias;
            Reads(s, d, a, if j < phs[i].filesz then img[phs[i].off + j] as int else 0)
  {
    CoveredHolds(img, phs, bias, s0, h0, s1, h1, i, a);
    assert TouchedIn(phs2, bias2, |phs2|, h1, h, a / 4096);
    assert At(s, h, a) == At(s1, h1, a);
    hide Image, Loaded, Space, Reads, Disjoint;
    ReadsAt(s, d, h, a);
  }

  lemma CoversPage(lo: nat, n: nat, a: nat)
    requires lo <= a < lo + n
    ensures lo / 4096 <= a / 4096 < (lo + n + 4095) / 4096
  {
  }

  // ----- the extent of a program -----

  const NONE := 0xFFFF_FFFF_FFFF_FFFF

  /** The lowest address of the first `k` headers, and the end of the highest. */
  function LowOf(phs: seq<Ph>, bias: nat, k: nat): nat
    requires k <= |phs|
  {
    if k == 0 then NONE
    else if Counts(phs[k - 1]) && phs[k - 1].vaddr + bias < LowOf(phs, bias, k - 1) then phs[k - 1].vaddr + bias
    else LowOf(phs, bias, k - 1)
  }

  function HighOf(phs: seq<Ph>, bias: nat, k: nat): nat
    requires k <= |phs|
  {
    if k == 0 then 0
    else if Counts(phs[k - 1]) && phs[k - 1].vaddr + bias + phs[k - 1].memsz > HighOf(phs, bias, k - 1)
      then phs[k - 1].vaddr + bias + phs[k - 1].memsz
      else HighOf(phs, bias, k - 1)
  }

  /** The program lies between the two, and reaches both unless there is nothing to load. */
  lemma {:induction false} Extent(phs: seq<Ph>, bias: nat, k: nat)
    requires k <= |phs|
    ensures forall a: nat, i ::
            0 <= i < k && Covers(phs[i], bias, a) ==> LowOf(phs, bias, k) <= a < HighOf(phs, bias, k)
    ensures LowOf(phs, bias, k) == NONE || exists i :: 0 <= i < k && Covers(phs[i], bias, LowOf(phs, bias, k))
    ensures HighOf(phs, bias, k) == 0 ||
            exists i :: 0 <= i < k && Counts(phs[i]) && Covers(phs[i], bias, HighOf(phs, bias, k) - 1)
  {
    if k > 0 {
      Extent(phs, bias, k - 1);
      assert Counts(phs[k - 1]) ==>
        Covers(phs[k - 1], bias, phs[k - 1].vaddr + bias) &&
        Covers(phs[k - 1], bias, phs[k - 1].vaddr + bias + phs[k - 1].memsz - 1);
    }
  }

  lemma {:induction false} LowBelow(phs: seq<Ph>, k: nat, n: nat)
    requires k <= |phs| && n <= NONE
    ensures LowOf(phs, 0, k) < n <==> exists i :: 0 <= i < k && Counts(phs[i]) && phs[i].vaddr < n
  {
    if k > 0 { LowBelow(phs, k - 1, n); }
  }

  /** The address of the last PT_PHDR of the first `k` headers, or 0. */
  function PhdrOf(phs: seq<Ph>, bias: nat, k: nat): nat
    requires k <= |phs|
  {
    if k == 0 then 0 else if phs[k - 1].kind == Phdr then phs[k - 1].vaddr + bias else PhdrOf(phs, bias, k - 1)
  }
}
