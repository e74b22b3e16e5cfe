/** The kernel heap: a first-fit allocator with an unordered free list threaded through the free
    blocks, merging a freed block with both neighbours (kernel/mm/heap.c). Addresses are offsets
    into the pool in 8-byte words: a block header is two words, the least block four. */
module Heap {

  const HDR := 2
  const MIN_BLOCK := HDR + 2
  const NULL := -1
  const U64 := 0x1_0000_0000_0000_0000

  /** Every block of the pool with its size, free ones and live ones. */
  type Blocks = map<nat, nat>

  // ----- the pool as a tiling -----

  predicate BlockOk(b: Blocks, n: nat, a: nat)
  {
    a in b ==> b[a] >= MIN_BLOCK && a + b[a] <= n && (a + b[a] == n || a + b[a] in b)
  }

  predicate Before(b: Blocks, a: nat, c: nat)
  {
    a in b && c in b && a < c ==> a + b[a] <= c
  }

  /** The blocks follow one another from 0 to the end of the pool, and do not overlap. */
  ghost predicate Tiles(b: Blocks, n: nat)
  {
    && 0 in b && (forall a: nat {:trigger BlockOk(b, n, a)} :: BlockOk(b, n, a))
    && (forall a: nat, c: nat {:trigger Before(b, a, c)} :: Before(b, a, c))
  }

  /** The free list names blocks, once each. */
  ghost predicate ListOk(b: Blocks, free: seq<nat>)
  {
    && (forall i :: 0 <= i < |free| ==> free[i] in b)
    && (forall i, j :: 0 <= i < |free| && 0 <= j < |free| && free[i] == free[j] ==> i == j)
  }

  predicate NotFollowed(b: Blocks, free: seq<nat>, a: nat)
  {
    a in b && a in free ==> a + b[a] !in free
  }

  /** No free block is followed by another one. */
  ghost predicate Merged(b: Blocks, free: seq<nat>)
  {
    forall a: nat {:trigger NotFollowed(b, free, a)} :: NotFollowed(b, free, a)
  }

  ghost predicate Inv(b: Blocks, free: seq<nat>, n: nat)
  {
    Tiles(b, n) && ListOk(b, free) && Merged(b, free)
  }

  predicate Live(b: Blocks, free: seq<nat>, a: nat)
  {
    a in b && a !in free
  }

  // ----- allocation -----

  /** The words kmalloc asks for: the size and an 8-byte header, rounded up to 16 bytes in 64-bit
      arithmetic, and at least the least block. */
  function Need(size: nat): nat
  {
    var w := (size + 8 + 15) % U64 / 16 * 2;
    if w < MIN_BLOCK then MIN_BLOCK else w
  }

  /** A block of `Need(size)` words holds the header and `size` bytes, unless the sum wraps. */
  lemma NeedHolds(size: nat)
    requires size < U64
    ensures 8 * Need(size) >= size + 8 <==> size + 23 < U64
  {
  }

  /** It wastes less than 16 bytes unless it is the least block, and is a whole number of 16 bytes. */
  lemma NeedTight(size: nat)
    ensures 8 * Need(size) < size + 24 || Need(size) == MIN_BLOCK
    ensures Need(size) % 2 == 0
  {
    var n := (size + 8 + 15) % U64;
    assert n <= size + 23;
  }

  /** The largest sizes wrap to the least block. */
  lemma NeedWraps(size: nat)
    requires U64 - 23 <= size < U64
    ensures Need(size) == MIN_BLOCK && 8 * Need(size) < size + 8
  {
  }

  /** The block at `a`, cut to `need` words when what is left over makes a block. */
  function Split(b: Blocks, a: nat, need: nat): Blocks
    requires a in b
  {
    if b[a] >= need + MIN_BLOCK then b[a := need][a + need := b[a] - need] else b
  }

  /** The free list after block `i` of it was handed out: what is left over takes its place. */
  function Taken(b: Blocks, free: seq<nat>, i: nat, need: nat): seq<nat>
    requires i < |free| && free[i] in b
  {
    if b[free[i]] >= need + MIN_BLOCK then free[i := free[i] + need] else free[..i] + free[i + 1..]
  }

  lemma SplitTiles(b: Blocks, n: nat, a: nat, need: nat)
    requires Tiles(b, n) && a in b && MIN_BLOCK <= need <= b[a]
    ensures Tiles(Split(b, a, need), n)
  {
    var b' := Split(b, a, need);
    forall c: nat
      ensures BlockOk(b', n, c)
    {
      assert BlockOk(b, n, a) && BlockOk(b, n, c);
    }
    forall c: nat, e: nat
      ensures Before(b', c, e)
    {
      assert Before(b, c, e) && Before(b, c, a) && Before(b, a, c) && Before(b, a, e) && BlockOk(b, n, a);
    }
  }

  lemma SplitIsNew(b: Blocks, n: nat, a: nat, need: nat)
    requires Tiles(b, n) && a in b && 0 < need < b[a]
    ensures a + need !in b
  {
    assert Before(b, a, a + need);
  }

  lemma TakenList(b: Blocks, free: seq<nat>, n: nat, i: nat, need: nat)
    requires Tiles(b, n) && ListOk(b, free) && i < |free| && MIN_BLOCK <= need <= b[free[i]]
    ensures ListOk(Split(b, free[i], need), Taken(b, free, i, need))
    ensures Live(Split(b, free[i], need), Taken(b, free, i, need), free[i])
  {
    if need < b[free[i]] { SplitIsNew(b, n, free[i], need); }
    hide Tiles;
  }

  /** Which blocks are free afterwards. */
  lemma TakenFree(b: Blocks, free: seq<nat>, i: nat, need: nat, c: nat)
    requires ListOk(b, free) && i < |free| && MIN_BLOCK <= need <= b[free[i]]
    ensures c in Taken(b, free, i, need) <==>
              (c in free && c != free[i]) || (b[free[i]] >= need + MIN_BLOCK && c == free[i] + need)
  {
    var free' := Taken(b, free, i, need);
    if c in free && c != free[i] {
      var j :| 0 <= j < |free| && free[j] == c;
      assert free'[if j < i || b[free[i]] >= need + MIN_BLOCK then j else j - 1] == c;
    }
    if b[free[i]] >= need + MIN_BLOCK { assert free'[i] == free[i] + need; }
  }

  lemma TakeKeeps(b: Blocks, free: seq<nat>, n: nat, i: nat, need: nat)
    requires Inv(b, free, n) && i < |free| && MIN_BLOCK <= need <= b[free[i]]
    ensures Inv(Split(b, free[i], need), Taken(b, free, i, need), n)
  {
    var a: nat := free[i];
    var b', free' := Split(b, a, need), Taken(b, free, i, need);
    SplitTiles(b, n, a, need);
    TakenList(b, free, n, i, need);
    forall c: nat
      ensures NotFollowed(b', free', c)
    {
      if c in b' {
        TakenFree(b, free, i, need, c);
        TakenFree(b, free, i, need, c + b'[c]);
        assert NotFollowed(b, free, a) && NotFollowed(b, free, c) && Before(b, c, a) && Before(b, a, c) &&
          BlockOk(b, n, a);
        hide Taken;
      }
    }
  }

  // ----- when allocation succeeds -----

  /** The words [p, p + k) touch no live block. */
  ghost predicate Gap(b: Blocks, free: seq<nat>, n: nat, p: nat, k: nat)
  {
    p + k <= n && forall a: nat {:trigger Live(b, free, a)} :: Live(b, free, a) ==> a + b[a] <= p || p + k <= a
  }

  lemma {:induction false} CoverFrom(b: Blocks, n: nat, a: nat, p: nat) returns (c: nat)
    requires Tiles(b, n) && a in b && a <= p < n
    ensures c in b && c <= p < c + b[c]
    decreases p - a
  {
    assert BlockOk(b, n, a);
    if p < a + b[a] { return a; }
    c := CoverFrom(b, n, a + b[a], p);
  }

  lemma BlockIsGap(b: Blocks, free: seq<nat>, n: nat, a: nat, need: nat)
    requires Inv(b, free, n) && a in free && a in b && b[a] >= need
    ensures Gap(b, free, n, a, need)
  {
    assert BlockOk(b, n, a);
    forall c: nat | Live(b, free, c)
      ensures c + b[c] <= a || a + need <= c
    {
      assert Before(b, a, c) && Before(b, c, a);
    }
  }

  lemma GapHasBlock(b: Blocks, free: seq<nat>, n: nat, p: nat, need: nat) returns (a: nat)
    requires Inv(b, free, n) && need > 0 && Gap(b, free, n, p, need)
    ensures a in free && a in b && b[a] >= need
  {
    a := CoverFrom(b, n, 0, p);
    assert BlockOk(b, n, a) && NotFollowed(b, free, a);
    assert !Live(b, free, a);
    var c := a + b[a];
    assert c in b ==> Live(b, free, c) && BlockOk(b, n, c);
  }

  /** kmalloc finds a block exactly when some gap between live blocks is large enough. */
  lemma FitsIffGap(b: Blocks, free: seq<nat>, n: nat, need: nat)
    requires Inv(b, free, n) && need > 0
    ensures (exists a :: a in free && a in b && b[a] >= need) <==> (exists p: nat :: Gap(b, free, n, p, need))
  {
    if a :| a in free && a in b && b[a] >= need {
      BlockIsGap(b, free, n, a, need);
    }
    if p: nat :| Gap(b, free, n, p, need) {
      var a := GapHasBlock(b, free, n, p, need);
    }
  }

  // ----- freeing -----

  /** Blocks `a` and `c` made one. */
  function Join(b: Blocks, a: nat, c: nat): (r: Blocks)
    requires a in b && c in b && a != c
    ensures r.Keys == b.Keys - {c} && r[a] == b[a] + b[c] && forall x :: x in r && x != a ==> r[x] == b[x]
  {
    (b - {c})[a := b[a] + b[c]]
  }

  lemma JoinTiles(b: Blocks, n: nat, a: nat)
    requires Tiles(b, n) && a in b && a + b[a] in b && b[a] > 0
    ensures Tiles(Join(b, a, a + b[a]), n)
  {
    var e := a + b[a];
    var b' := Join(b, a, e);
    assert BlockOk(b, n, a) && BlockOk(b, n, e);
    forall c: nat
      ensures BlockOk(b', n, c)
    {
      assert BlockOk(b, n, c) && Before(b, c, a) && Before(b, a, c);
    }
    forall c: nat, d: nat
      ensures Before(b', c, d)
    {
      assert Before(b, c, d) && Before(b, e, d);
    }
  }

  /** The free list without `c`. */
  function Remove(free: seq<nat>, c: nat): seq<nat>
  {
    if free == [] then [] else if free[0] == c then free[1..] else [free[0]] + Remove(free[1..], c)
  }

  lemma {:induction false} RemoveAt(free: seq<nat>, j: nat)
    requires j < |free| && forall i :: 0 <= i < j ==> free[i] != free[j]
    ensures Remove(free, free[j]) == free[..j] + free[j + 1..]
  {
    if j > 0 {
      RemoveAt(free[1..], j - 1);
      assert free[1..][j - 1] == free[j];
      assert [free[0]] + (free[1..][..j - 1] + free[1..][j..]) == free[..j] + free[j + 1..];
    }
  }

  /** Block `f` ends where `a` starts. */
  predicate EndsAt(b: Blocks, f: nat, a: nat)
  {
    f in b && f != a && f + b[f] == a
  }

  /** The list without its element `j`. */
  function Cut(free: seq<nat>, j: nat): (r: seq<nat>)
    requires j < |free|
    ensures |r| == |free| - 1 && forall i :: 0 <= i < |r| ==> r[i] == free[if i < j then i else i + 1]
  {
    free[..j] + free[j + 1..]
  }

  lemma CutIn(b: Blocks, free: seq<nat>, j: nat, x: nat)
    requires ListOk(b, free) && j < |free|
    ensures x in Cut(free, j) <==> x in free && x != free[j]
  {
    hide Cut;
    if x in free && x != free[j] {
      var i :| 0 <= i < |free| && free[i] == x;
      assert Cut(free, j)[if i < j then i else i - 1] == x;
    }
  }

  lemma CutOk(b: Blocks, free: seq<nat>, j: nat)
    requires ListOk(b, free) && j < |free|
    ensures ListOk(b - {free[j]}, Cut(free, j))
  {
    hide Cut;
  }

  lemma RemoveFree(b: Blocks, free: seq<nat>, c: nat, x: nat)
    requires ListOk(b, free) && c in free
    ensures x in Remove(free, c) <==> x in free && x != c
    ensures ListOk(b - {c}, Remove(free, c))
  {
    var j: nat :| j < |free| && free[j] == c;
    RemoveAt(free, j);
    assert Remove(free, c) == Cut(free, j);
    hide Remove, ListOk, Cut;
    CutIn(b, free, j, x);
    CutOk(b, free, j);
  }

  /** The first merge: the block after `a`, if free, is taken off the list and joined to `a`. */
  lemma JoinNextKeeps(b: Blocks, free: seq<nat>, n: nat, a: nat)
    requires Inv(b, free, n) && Live(b, free, a) && a + b[a] in free
    ensures a + b[a] in b && a + b[a] != a
    ensures Inv(Join(b, a, a + b[a]), Remove(free, a + b[a]), n) &&
            Live(Join(b, a, a + b[a]), Remove(free, a + b[a]), a)
    ensures a + Join(b, a, a + b[a])[a] !in Remove(free, a + b[a])
  {
    var c := a + b[a];
    assert BlockOk(b, n, a) && BlockOk(b, n, c);
    var b', free' := Join(b, a, c), Remove(free, c);
    JoinTiles(b, n, a);
    RemoveFree(b, free, c, a);
    forall x: nat
      ensures NotFollowed(b', free', x)
    {
      if x in b' {
        RemoveFree(b, free, c, x);
        RemoveFree(b, free, c, x + b'[x]);
        assert NotFollowed(b, free, x);
      }
    }
    RemoveFree(b, free, c, a + b'[a]);
    assert NotFollowed(b, free, c);
  }

  /** The second merge: a free block that ends at `a` takes `a` in. */
  lemma JoinPrevKeeps(b: Blocks, free: seq<nat>, n: nat, f: nat, a: nat)
    requires Inv(b, free, n) && Live(b, free, a) && a + b[a] !in free && f in free && EndsAt(b, f, a)
    ensures Inv(Join(b, f, a), free, n)
  {
    assert BlockOk(b, n, f) && BlockOk(b, n, a);
    var b' := Join(b, f, a);
    JoinTiles(b, n, f);
    forall x: nat
      ensures NotFollowed(b', free, x)
    {
      assert NotFollowed(b, free, x);
    }
  }

  /** No free neighbour: `a` goes to the head of the list. */
  lemma PushKeeps(b: Blocks, free: seq<nat>, n: nat, a: nat)
    requires Inv(b, free, n) && Live(b, free, a) && a + b[a] !in free && forall f :: f in free ==> !EndsAt(b, f, a)
    ensures Inv(b, [a] + free, n)
  {
    forall x: nat
      ensures NotFollowed(b, [a] + free, x)
    {
      assert NotFollowed(b, free, x) && BlockOk(b, n, a) && (x in b && x in free ==> !EndsAt(b, x, a));
    }
  }

  // ----- whole runs -----

  /** The heap as a value. */
  datatype State = State(b: Blocks, free: seq<nat>)

  /** What heap_init leaves: one free block. */
  function Initial(n: nat): State
  {
    State(map[0 := n], [0])
  }

  lemma InitialOk(n: nat)
    requires n >= MIN_BLOCK
    ensures Inv(Initial(n).b, Initial(n).free, n)
  {
  }

  /** kmalloc takes the first block on the list that is large enough, or none. */
  ghost predicate Alloc(s: State, need: nat, s': State, a: int)
  {
    if a == NULL then s' == s && forall c :: c in s.free && c in s.b ==> s.b[c] < need
    else exists i :: 0 <= i < |s.free| && FirstFit(s, need, i) && a == s.free[i] &&
                     s' == State(Split(s.b, s.free[i], need), Taken(s.b, s.free, i, need))
  }

  ghost predicate FirstFit(s: State, need: nat, i: nat)
  {
    && i < |s.free| && s.free[i] in s.b && s.b[s.free[i]] >= need
    && forall j :: 0 <= j < i ==> s.free[j] in s.b && s.b[s.free[j]] < need
  }

  /** kfree of the live block `a`. */
  function AfterNext(s: State, a: nat): State
  {
    if a in s.b && a + s.b[a] in s.free && a + s.b[a] in s.b && s.b[a] > 0
    then State(Join(s.b, a, a + s.b[a]), Remove(s.free, a + s.b[a])) else s
  }

  /** What the second half of kfree makes of the heap. */
  ghost predicate Settled(t: State, a: nat, s': State)
  {
    a in t.b &&
    if exists f :: f in t.free && EndsAt(t.b, f, a)
    then exists f :: f in t.free && EndsAt(t.b, f, a) && s' == State(Join(t.b, f, a), t.free)
    else s' == State(t.b, [a] + t.free)
  }

  ghost predicate Freed(s: State, a: nat, s': State)
  {
    Settled(AfterNext(s, a), a, s')
  }

  /** kmalloc fails exactly when no gap between live blocks has room. */
  lemma AllocIffGap(s: State, n: nat, need: nat, s': State, a: int)
    requires Inv(s.b, s.free, n) && need >= MIN_BLOCK && Alloc(s, need, s', a)
    ensures a != NULL <==> exists p: nat :: Gap(s.b, s.free, n, p, need)
  {
    FitsIffGap(s.b, s.free, n, need);
    hide Gap, Inv;
  }

  /** The block handed out was not live, has room, and is the only change to what is live. */
  lemma AllocLive(s: State, n: nat, need: nat, s': State, a: nat, c: nat)
    requires Inv(s.b, s.free, n) && need >= MIN_BLOCK && Alloc(s, need, s', a)
    ensures !Live(s.b, s.free, a) && a in s'.b && need <= s'.b[a] < need + MIN_BLOCK
    ensures Live(s'.b, s'.free, c) <==> Live(s.b, s.free, c) || c == a
    ensures Live(s.b, s.free, c) ==> s'.b[c] == s.b[c]
  {
    var i :| 0 <= i < |s.free| && FirstFit(s, need, i) && a == s.free[i] &&
             s' == State(Split(s.b, s.free[i], need), Taken(s.b, s.free, i, need));
    TakenFree(s.b, s.free, i, need, c);
    if need < s.b[a] { SplitIsNew(s.b, n, a, need); }
    hide Taken;
  }

  /** Freeing `a` takes `a`, and no other block, from what is live. */
  lemma FreedLive(s: State, n: nat, a: nat, s': State, c: nat)
    requires Inv(s.b, s.free, n) && Live(s.b, s.free, a) && Freed(s, a, s')
    ensures Live(s'.b, s'.free, c) <==> Live(s.b, s.free, c) && c != a
    ensures Live(s.b, s.free, c) && c != a ==> s'.b[c] == s.b[c]
  {
    var t := AfterNext(s, a);
    assert BlockOk(s.b, n, a);
    if a + s.b[a] in s.free { RemoveFree(s.b, s.free, a + s.b[a], c); RemoveFree(s.b, s.free, a + s.b[a], a); }
    hide Remove;
    assert Live(t.b, t.free, c) <==> Live(s.b, s.free, c);
  }

  lemma AllocKeeps(s: State, n: nat, need: nat, s': State, a: int)
    requires Inv(s.b, s.free, n) && need >= MIN_BLOCK && Alloc(s, need, s', a)
    ensures Inv(s'.b, s'.free, n)
  {
    if a != NULL {
      var i :| 0 <= i < |s.free| && FirstFit(s, need, i) && a == s.free[i] &&
               s' == State(Split(s.b, s.free[i], need), Taken(s.b, s.free, i, need));
      TakeKeeps(s.b, s.free, n, i, need);
    }
  }

  lemma NextKeeps(s: State, n: nat, a: nat)
    requires Inv(s.b, s.free, n) && Live(s.b, s.free, a)
    ensures var t := AfterNext(s, a); Inv(t.b, t.free, n) && Live(t.b, t.free, a) && a + t.b[a] !in t.free
  {
    assert BlockOk(s.b, n, a);
    if a + s.b[a] in s.free { JoinNextKeeps(s.b, s.free, n, a); }
  }

  lemma FreeKeeps(s: State, n: nat, a: nat, s': State)
    requires Inv(s.b, s.free, n) && Live(s.b, s.free, a) && Freed(s, a, s')
    ensures Inv(s'.b, s'.free, n)
  {
    hide Inv, AfterNext;
    var t := AfterNext(s, a);
    NextKeeps(s, n, a);
    if exists f :: f in t.free && EndsAt(t.b, f, a) {
      var f :| f in t.free && EndsAt(t.b, f, a) && s' == State(Join(t.b, f, a), t.free);
      JoinPrevKeeps(t.b, t.free, n, f, a);
    } else {
      PushKeeps(t.b, t.free, n, a);
    }
  }

  /** With every block freed the heap is the one initial block again. */
  lemma NoLiveIsInitial(s: State, n: nat)
    requires Inv(s.b, s.free, n) && forall a :: !Live(s.b, s.free, a)
    ensures s == Initial(n)
  {
    assert BlockOk(s.b, n, 0) && NotFollowed(s.b, s.free, 0);
    assert 0 in s.b && 0 in s.free by { assert !Live(s.b, s.free, 0); }
    assert s.b[0] == n by { assert !Live(s.b, s.free, s.b[0]); }
    forall a: nat | a in s.b
      ensures a == 0
    {
      assert Before(s.b, 0, a) && BlockOk(s.b, n, a);
    }
    assert s.b == map[0 := n];
    assert forall i :: 0 <= i < |s.free| ==> s.free[i] == 0;
    var last := |s.free| - 1;
    assert s.free[last] == s.free[0];
    assert s.free == [0];
  }

  ghost predicate Step(s: State, s': State)
  {
    || (exists need: nat, a: int :: need >= MIN_BLOCK && Alloc(s, need, s', a))
    || (exists a: nat :: Live(s.b, s.free, a) && Freed(s, a, s'))
  }

  /** In every run the pool stays tiled and merged, and a run that frees all it allocated ends where
      it began. */
  lemma {:induction false} RunRestores(run: seq<State>, n: nat)
    requires n >= MIN_BLOCK && |run| > 0 && run[0] == Initial(n) &&
             forall i :: 0 <= i < |run| - 1 ==> Step(run[i], run[i + 1])
    ensures var s := run[|run| - 1]; Inv(s.b, s.free, n) && ((forall a :: !Live(s.b, s.free, a)) ==> s == Initial(n))
  {
    var last := |run| - 1;
    if last == 0 {
      InitialOk(n);
    } else {
      RunRestores(run[..last], n);
      StepKeeps(run[last - 1], n, run[last]);
    }
    if forall a :: !Live(run[last].b, run[last].free, a) { NoLiveIsInitial(run[last], n); }
  }

  lemma StepKeeps(s: State, n: nat, s': State)
    requires Inv(s.b, s.free, n) && Step(s, s')
    ensures Inv(s'.b, s'.free, n)
  {
    hide Inv, Alloc, Freed;
    if exists need: nat, a: int :: need >= MIN_BLOCK && Alloc(s, need, s', a) {
      var need: nat, a: int :| need >= MIN_BLOCK && Alloc(s, need, s', a);
      AllocKeeps(s, n, need, s', a);
    } else {
      var a: nat :| Live(s.b, s.free, a) && Freed(s, a, s');
      FreeKeeps(s, n, a, s');
    }
  }

  // ----- the heap in memory -----

  /** The list in memory: `head`, then the second word of each free block. */
  ghost predicate Linked(m: seq<int>, head: int, free: seq<nat>)
  {
    head == NextOf(free, -1) && forall i: nat {:trigger LinkAt(m, free, i)} :: LinkAt(m, free, i)
  }

  predicate LinkAt(m: seq<int>, free: seq<nat>, i: nat)
  {
    i < |free| ==> free[i] + 1 < |m| && m[free[i] + 1] == NextOf(free, i)
  }

  function NextOf(free: seq<nat>, i: int): int
  {
    if -1 <= i && i + 1 < |free| then free[i + 1] else NULL
  }

  ghost predicate Sizes(m: seq<int>, b: Blocks)
  {
    forall a :: a in b ==> a + 1 < |m| && m[a] == b[a]
  }

  ghost predicate Rep(m: seq<int>, head: int, s: State)
  {
    |m| >= MIN_BLOCK && Inv(s.b, s.free, |m|) && Sizes(m, s.b) && Linked(m, head, s.free)
  }

  /** Two blocks start at least a block apart. */
  lemma Spaced(b: Blocks, n: nat, a: nat, c: nat)
    requires Tiles(b, n) && a in b && c in b && a != c
    ensures a + MIN_BLOCK <= c || c + MIN_BLOCK <= a
  {
    assert Before(b, a, c) && Before(b, c, a) && BlockOk(b, n, a) && BlockOk(b, n, c);
  }

  /** The words of live blocks are as they were. */
  ghost predicate LiveKept(m: seq<int>, s: State, m': seq<int>)
  {
    |m'| == |m| && forall a: nat, k: nat {:trigger LiveWord(s, a, k)} :: LiveWord(s, a, k) && k < |m| ==> m'[k] == m[k]
  }

  predicate LiveWord(s: State, a: nat, k: nat)
  {
    Live(s.b, s.free, a) && a <= k < a + s.b[a]
  }

  /** A word inside block `f` is in no other block. */
  lemma InOneBlock(b: Blocks, n: nat, f: nat, w: nat, a: nat)
    requires Tiles(b, n) && f in b && a in b && f <= w < f + b[f] && a <= w < a + b[a]
    ensures a == f
  {
    assert Before(b, a, f) && Before(b, f, a);
  }

  lemma WriteKept(m: seq<int>, s: State, f: nat, w: nat, v: int)
    requires Tiles(s.b, |m|) && f in s.b && f in s.free && f <= w < f + s.b[f] && w < |m|
    ensures LiveKept(m, s, m[w := v])
  {
    forall a: nat, k: nat | LiveWord(s, a, k)
      ensures k != w
    {
      if k == w { InOneBlock(s.b, |m|, f, w, a); }
    }
  }

  // ----- unlinking -----

  /** Block `i` taken out of the list. */
  function UnlinkMem(m: seq<int>, free: seq<nat>, i: nat): seq<int>
    requires i < |free| && free[i] + 1 < |m| && (i > 0 ==> free[i - 1] + 1 < |m|)
  {
    if i == 0 then m else m[free[i - 1] + 1 := m[free[i] + 1]]
  }

  lemma UnlinkLinked(m: seq<int>, head: int, b: Blocks, free: seq<nat>, i: nat)
    requires Linked(m, head, free) && i < |free| && ListOk(b, free)
    ensures free[i] + 1 < |m| && (i > 0 ==> free[i - 1] + 1 < |m|)
    ensures Linked(UnlinkMem(m, free, i), if i == 0 then m[free[i] + 1] else head, free[..i] + free[i + 1..])
  {
    assert LinkAt(m, free, i) && (i > 0 ==> LinkAt(m, free, i - 1));
    var m', free' := UnlinkMem(m, free, i), free[..i] + free[i + 1..];
    forall j: nat
      ensures LinkAt(m', free', j)
    {
      assert LinkAt(m, free, j) && LinkAt(m, free, j + 1);
    }
  }

  lemma NextKeepsSizes(m: seq<int>, b: Blocks, n: nat, a: nat, v: int)
    requires Tiles(b, n) && Sizes(m, b) && a in b
    ensures a + 1 < |m| && Sizes(m[a + 1 := v], b)
  {
    forall c | c in b
      ensures c + 1 < |m| && m[a + 1 := v][c] == b[c]
    {
      if c != a { Spaced(b, n, a, c); }
    }
  }

  // ----- splitting -----

  function SplitMem(m: seq<int>, a: nat, need: nat): seq<int>
    requires a + 1 < |m| && need >= MIN_BLOCK && (m[a] >= need + MIN_BLOCK ==> a + need + 1 < |m|)
  {
    if m[a] >= need + MIN_BLOCK then m[a + need := m[a] - need][a + need + 1 := m[a + 1]][a := need][a + 1 := a + need]
      else m
  }

  /** The list with what is left over of block `i` right after it. */
  function WithRest(free: seq<nat>, i: nat, rest: nat): seq<nat>
    requires i < |free|
  {
    free[..i + 1] + [rest] + free[i + 1..]
  }

  lemma SplitSizes(m: seq<int>, b: Blocks, a: nat, need: nat)
    requires Tiles(b, |m|) && Sizes(m, b) && a in b && need >= MIN_BLOCK && b[a] >= need + MIN_BLOCK
    ensures a + need + 1 < |m| && Sizes(SplitMem(m, a, need), Split(b, a, need))
  {
    assert BlockOk(b, |m|, a);
    var m', b' := SplitMem(m, a, need), Split(b, a, need);
    forall c | c in b'
      ensures c + 1 < |m'| && m'[c] == b'[c]
    {
      assert Before(b, a, c);
      if c in b && c != a { Spaced(b, |m|, a, c); }
    }
  }

  lemma SplitLinked(m: seq<int>, head: int, s: State, i: nat, need: nat)
    requires Rep(m, head, s) && i < |s.free| && need >= MIN_BLOCK && s.b[s.free[i]] >= need + MIN_BLOCK
    ensures s.free[i] + 1 < |m| && s.free[i] + need + 1 < |m|
    ensures Linked(SplitMem(m, s.free[i], need), head, WithRest(s.free, i, s.free[i] + need))
  {
    var a: nat := s.free[i];
    assert BlockOk(s.b, |m|, a) && LinkAt(m, s.free, i);
    var m', free' := SplitMem(m, a, need), WithRest(s.free, i, a + need);
    forall j: nat | j < |s.free| && j != i
      ensures s.free[j] + 1 < |m'| && m'[s.free[j] + 1] == m[s.free[j] + 1]
    {
      assert LinkAt(m, s.free, j);
      Spaced(s.b, |m|, a, s.free[j]);
      assert Before(s.b, a, s.free[j]);
    }
    hide Inv, Sizes;
    forall j: nat
      ensures LinkAt(m', free', j)
    {
      assert LinkAt(m, s.free, j) && (j > 0 ==> LinkAt(m, s.free, j - 1));
    }
  }

  lemma SplitKept(m: seq<int>, head: int, s: State, a: nat, need: nat)
    requires Rep(m, head, s) && a in s.free && a in s.b && need >= MIN_BLOCK && s.b[a] >= need + MIN_BLOCK
    ensures a + need + 1 < |m| && LiveKept(m, s, SplitMem(m, a, need))
  {
    assert BlockOk(s.b, |m|, a);
    forall c: nat, k: nat | LiveWord(s, c, k)
      ensures !(a <= k < a + s.b[a])
    {
      if a <= k < a + s.b[a] { InOneBlock(s.b, |m|, a, k, c); }
    }
  }

  lemma KeptTrans(m: seq<int>, s: State, m1: seq<int>, m2: seq<int>)
    requires LiveKept(m, s, m1) && LiveKept(m1, s, m2)
    ensures LiveKept(m, s, m2)
  {
  }

  /** Taking block `i` of the list out of it. */
  lemma UnlinkRep(m: seq<int>, head: int, b: Blocks, free: seq<nat>, i: nat)
    requires Linked(m, head, free) && Tiles(b, |m|) && Sizes(m, b) && ListOk(b, free) && i < |free|
    ensures free[i] + 1 < |m| && (i > 0 ==> free[i - 1] + 1 < |m|)
    ensures Linked(UnlinkMem(m, free, i), if i == 0 then m[free[i] + 1] else head, free[..i] + free[i + 1..])
    ensures Sizes(UnlinkMem(m, free, i), b) && |UnlinkMem(m, free, i)| == |m|
  {
    UnlinkLinked(m, head, b, free, i);
    if i > 0 { NextKeepsSizes(m, b, |m|, free[i - 1], m[free[i] + 1]); }
  }

  lemma UnlinkKept(m: seq<int>, s: State, free: seq<nat>, i: nat)
    requires Tiles(s.b, |m|) && i < |free| && free[i] + 1 < |m|
    requires i > 0 ==> free[i - 1] in s.b && free[i - 1] in s.free && free[i - 1] + 1 < |m|
    ensures LiveKept(m, s, UnlinkMem(m, free, i))
  {
    if i > 0 {
      assert BlockOk(s.b, |m|, free[i - 1]);
      WriteKept(m, s, free[i - 1], free[i - 1] + 1, m[free[i] + 1]);
    }
  }

  /** Taking block `i` of the list off it, cut to `need` words if it is larger by a block. */
  lemma TakeRep(m: seq<int>, head: int, s: State, i: nat, need: nat, m1: seq<int>)
    requires Rep(m, head, s) && i < |s.free| && MIN_BLOCK <= need <= s.b[s.free[i]]
    requires s.free[i] + 1 < |m| && (m[s.free[i]] >= need + MIN_BLOCK ==> s.free[i] + need + 1 < |m|)
    requires m1 == SplitMem(m, s.free[i], need)
    ensures i > 0 ==> s.free[i - 1] + 1 < |m1|
    ensures Rep(UnlinkMem(m1, s.free, i), if i == 0 then m1[s.free[i] + 1] else head,
                State(Split(s.b, s.free[i], need), Taken(s.b, s.free, i, need)))
    ensures LiveKept(m, s, UnlinkMem(m1, s.free, i))
  {
    var a: nat := s.free[i];
    TakeKeeps(s.b, s.free, |m|, i, need);
    assert BlockOk(s.b, |m|, a);
    if s.b[a] >= need + MIN_BLOCK {
      TakeSplit(m, head, s, i, need);
    } else {
      UnlinkRep(m, head, s.b, s.free, i);
      UnlinkKept(m, s, s.free, i);
    }
  }

  lemma TakeSplit(m: seq<int>, head: int, s: State, i: nat, need: nat)
    requires Rep(m, head, s) && i < |s.free| && MIN_BLOCK <= need && s.b[s.free[i]] >= need + MIN_BLOCK
    ensures s.free[i] + 1 < |m| && s.free[i] + need + 1 < |m| && (i > 0 ==> s.free[i - 1] + 1 < |m|)
    ensures var m1 := SplitMem(m, s.free[i], need);
            && Linked(UnlinkMem(m1, s.free, i), if i == 0 then m1[s.free[i] + 1] else head, Taken(s.b, s.free, i, need))
            && Sizes(UnlinkMem(m1, s.free, i), Split(s.b, s.free[i], need)) && LiveKept(m, s, UnlinkMem(m1, s.free, i))
  {
    hide Rep, Linked, Sizes, LiveKept, Tiles, ListOk, Merged;
    RepFacts(m, head, s, i);
    var a: nat := s.free[i];
    SplitLinked(m, head, s, i, need);
    SplitSizes(m, s.b, a, need);
    SplitKept(m, head, s, a, need);
    SplitTiles(s.b, |m|, a, need);
    var m1, free1, b1 := SplitMem(m, a, need), WithRest(s.free, i, a + need), Split(s.b, a, need);
    RestListOk(s.b, s.free, |m|, i, need);
    UnlinkRep(m1, head, b1, free1, i);
    assert UnlinkMem(m1, free1, i) == UnlinkMem(m1, s.free, i);
    assert free1[..i] + free1[i + 1..] == Taken(s.b, s.free, i, need);
    UnlinkKept(m1, s, s.free, i);
    KeptTrans(m, s, m1, UnlinkMem(m1, s.free, i));
  }

  lemma RepFacts(m: seq<int>, head: int, s: State, i: nat)
    requires Rep(m, head, s) && i < |s.free|
    ensures Tiles(s.b, |m|) && ListOk(s.b, s.free) && Sizes(m, s.b) && s.free[i] in s.b &&
            (i > 0 ==> s.free[i - 1] in s.b)
  {
  }

  lemma RestListOk(b: Blocks, free: seq<nat>, n: nat, i: nat, need: nat)
    requires Tiles(b, n) && ListOk(b, free) && i < |free| && MIN_BLOCK <= need && b[free[i]] >= need + MIN_BLOCK
    ensures ListOk(Split(b, free[i], need), WithRest(free, i, free[i] + need))
  {
    SplitIsNew(b, n, free[i], need);
    hide Tiles;
  }

  class Pool {
    const words: array<int>
    var head: int          // g_free
    ghost var s: State

    ghost predicate Valid()
      reads this, words
    {
      Rep(words[..], head, s)
    }

    /** heap_init over a pool of `n` words. */
    constructor (n: nat)
      requires n >= MIN_BLOCK
      ensures Valid() && fresh(words) && words.Length == n && s == Initial(n)
    {
      words := new int[n](_ => 0);
      head := 0;
      s := Initial(n);
      new;
      words[0] := n;
      words[1] := NULL;
      InitialOk(n);
    }

    /** split_node. */
    method SplitNode(a: nat, need: nat)
      requires a + 1 < words.Length && need >= MIN_BLOCK &&
               (words[a] >= need + MIN_BLOCK ==> a + need + 1 < words.Length)
      modifies words
      ensures words[..] == SplitMem(old(words[..]), a, need)
    {
      if words[a] >= need + MIN_BLOCK {
        var rest := a + need;
        words[rest] := words[a] - need;
        words[rest + 1] := words[a + 1];
        words[a] := need;
        words[a + 1] := rest;
      }
    }

    /** Stores `next` in the link that leads to block `i` of the list: `g_free` or the one before. */
    method Relink(prev: int, next: int, ghost i: nat)
      requires i < |s.free| && prev == (if i == 0 then NULL else s.free[i - 1]) && prev + 1 < words.Length
      modifies `head, words
      ensures i == 0 ==> head == next && words[..] == old(words[..])
      ensures i > 0 ==> head == old(head) && words[..] == old(words[..])[prev + 1 := next]
    {
      if prev == NULL {
        head := next;
      } else {
        words[prev + 1] := next;
      }
    }

    method TakeNode(prev: int, a: nat, need: nat, ghost i: nat)
      requires Valid() && i < |s.free| && MIN_BLOCK <= need <= s.b[s.free[i]] && a == s.free[i]
      requires prev == if i == 0 then NULL else s.free[i - 1]
      modifies this, words
      ensures Valid() && s == State(Split(old(s).b, a, need), Taken(old(s).b, old(s).free, i, need))
      ensures LiveKept(old(words[..]), old(s), words[..])
    {
      hide Rep, UnlinkMem;
      ghost var m := words[..];
      InRange(m, head, s, i, need);
      SplitNode(a, need);
      TakeRep(m, head, s, i, need, words[..]);
      ghost var m1 := words[..];
      Relink(prev, words[a + 1], i);
      assert words[..] == UnlinkMem(m1, s.free, i) by { UnlinkIs(m1, s.free, i); }
      s := State(Split(s.b, a, need), Taken(s.b, s.free, i, need));
    }

    /** kmalloc: the block after its header word, or NULL. */
    method Malloc(size: nat) returns (p: int)
      requires Valid() && size < U64
      modifies this, words
      ensures Valid() && LiveKept(old(words[..]), old(s), words[..])
      ensures size == 0 ==> p == NULL && s == old(s)
      ensures size > 0 ==> Alloc(old(s), Need(size), s, if p == NULL then NULL else p - 1) && p != 0
    {
      hide Rep, LiveKept;
      KeptRefl(words[..], s);
      if size == 0 { return NULL; }
      var need := Need(size);
      ghost var s0 := s;
      var prev, a := NULL, head;
      ghost var i := 0;
      HeadIs(words[..], head, s);
      while a != NULL
        invariant Valid() && s == s0 && words[..] == old(words[..])
        invariant 0 <= i <= |s0.free| && a == NextOf(s0.free, i - 1) &&
                  prev == (if i == 0 then NULL else s0.free[i - 1])
        invariant forall j :: 0 <= j < i ==> s0.free[j] in s0.b && s0.b[s0.free[j]] < need
        decreases |s0.free| - i
      {
        InRange(words[..], head, s, i, need);
        if words[a] >= need {
          assert FirstFit(s0, need, i);
          TakeNode(prev, a, need, i);
          return a + 1;
        }
        prev := a;
        a := words[a + 1];
        i := i + 1;
      }
      p := NULL;
    }

    /** Whether `c` is on the free list, and after which block. */
    method Find(c: int) returns (found: bool, prev: int, ghost i: nat)
      requires Valid() && c != NULL
      ensures found <==> c in s.free
      ensures found ==> i < |s.free| && s.free[i] == c && prev == if i == 0 then NULL else s.free[i - 1]
    {
      hide Rep;
      var a;
      prev, a, i := NULL, head, 0;
      HeadIs(words[..], head, s);
      while a != NULL
        invariant 0 <= i <= |s.free| && a == NextOf(s.free, i - 1) && prev == (if i == 0 then NULL else s.free[i - 1])
        invariant forall j :: 0 <= j < i ==> s.free[j] != c
        decreases |s.free| - i
      {
        if a == c { return true, prev, i; }
        InRange(words[..], head, s, i, MIN_BLOCK);
        prev := a;
        a := words[a + 1];
        i := i + 1;
      }
      found := false;
    }

    /** The free block that ends at `a`, or NULL. */
    method FindEnd(a: nat) returns (f: int)
      requires Valid() && a !in s.free
      ensures f == NULL ==> forall c :: c in s.free ==> !EndsAt(s.b, c, a)
      ensures f != NULL ==> f in s.free && f >= 0 && EndsAt(s.b, f, a)
    {
      hide Rep;
      f := head;
      ghost var i := 0;
      HeadIs(words[..], head, s);
      while f != NULL
        invariant 0 <= i <= |s.free| && f == NextOf(s.free, i - 1)
        invariant forall j :: 0 <= j < i ==> !EndsAt(s.b, s.free[j], a)
        decreases |s.free| - i
      {
        InRange(words[..], head, s, i, MIN_BLOCK);
        if f + words[f] == a { return f; }
        f := words[f + 1];
        i := i + 1;
      }
    }

    /** The first merge of kfree: with the block after `a`, if it is free. */
    method MergeNext(a: nat)
      requires Valid() && Live(s.b, s.free, a)
      modifies this, words
      ensures Valid() && s == AfterNext(old(s), a) && Live(s.b, s.free, a) && a + s.b[a] !in s.free
      ensures LiveKeptBut(old(words[..]), old(s), words[..], a)
    {
      hide Rep, AfterNext, LiveKeptBut;
      ghost var m, s0 := words[..], s;
      KeptButRefl(m, s0, a);
      LiveFacts(m, head, s0, a);
      NextKeeps(s0, words.Length, a);
      var c := a + words[a];
      if c < words.Length {
        var found, prev, i := Find(c);
        if found {
          InRange(m, head, s0, i, MIN_BLOCK);
          MergeNextRep(m, head, s0, a, i);
          words[a] := words[a] + words[c];
          ghost var m1 := words[..];
          Relink(prev, words[c + 1], i);
          assert words[..] == UnlinkMem(m1, s.free, i) by { UnlinkIs(m1, s.free, i); }
        } else {
          NoNext(s0, a);
        }
      } else {
        EndNext(m, head, s0, a);
      }
      s := AfterNext(s0, a);
    }

    /** The second merge of kfree, or `a` to the head of the list. */
    method MergePrev(a: nat)
      requires Valid() && Live(s.b, s.free, a) && a + s.b[a] !in s.free
      modifies this, words
      ensures Valid() && Settled(old(s), a, s) && LiveKeptBut(old(words[..]), old(s), words[..], a)
    {
      hide Rep, LiveKeptBut;
      ghost var m, s0 := words[..], s;
      LiveFacts(m, head, s0, a);
      if a > 0 {
        var f := FindEnd(a);
        if f != NULL {
          AbsorbRep(m, head, s0, f, a);
          words[f] := words[f] + words[a];
          s := State(Join(s0.b, f, a), s0.free);
          return;
        }
      }
      AtStart(s0, a);
      PushRep(m, head, s0, a);
      words[a + 1] := head;
      head := a;
      s := State(s0.b, [a] + s0.free);
    }

    /** kfree of NULL or of an address that kmalloc returned and that was not freed since. */
    method Free(p: int)
      requires Valid() && (p != NULL ==> p > 0 && Live(s.b, s.free, p - 1))
      modifies this, words
      ensures Valid()
      ensures p == NULL ==> s == old(s) && words[..] == old(words[..])
      ensures p != NULL ==> Freed(old(s), p - 1, s) && LiveKeptBut(old(words[..]), old(s), words[..], p - 1)
    {
      if p == NULL { return; }
      hide Rep, LiveKeptBut, AfterNext;
      var a := p - 1;
      ghost var m, s0 := words[..], s;
      LiveFacts(m, head, s0, a);
      var size := words[a];
      if size < MIN_BLOCK || a + size > words.Length { return; }
      ClearRep(m, head, s0, a);
      words[a] := size;
      words[a + 1] := NULL;
      ghost var m1 := words[..];
      assert m1 == m[a + 1 := NULL];
      MergeNext(a);
      ghost var m2, s2 := words[..], s;
      MergePrev(a);
      KeptButTrans(m, s0, m1, m2, a);
      StillLive(m, s0, m2, s2, words[..], a);
    }
  }

  lemma UnlinkIs(m: seq<int>, free: seq<nat>, i: nat)
    requires i < |free| && free[i] + 1 < |m| && (i > 0 ==> free[i - 1] + 1 < |m|)
    ensures UnlinkMem(m, free, i) == if i == 0 then m else m[free[i - 1] + 1 := m[free[i] + 1]]
  {
  }

  lemma InRange(m: seq<int>, head: int, s: State, i: nat, need: nat)
    requires Rep(m, head, s) && i < |s.free| && MIN_BLOCK <= need
    ensures s.free[i] in s.b && s.free[i] + 1 < |m| && m[s.free[i]] == s.b[s.free[i]]
    ensures m[s.free[i]] >= need + MIN_BLOCK ==> s.free[i] + need + 1 < |m|
    ensures i > 0 ==> s.free[i - 1] + 1 < |m|
    ensures m[s.free[i] + 1] == NextOf(s.free, i)
  {
    assert LinkAt(m, s.free, i) && (i > 0 ==> LinkAt(m, s.free, i - 1)) && BlockOk(s.b, |m|, s.free[i]);
  }

  lemma HeadIs(m: seq<int>, head: int, s: State)
    requires Rep(m, head, s)
    ensures head == NextOf(s.free, -1)
  {
  }

  lemma KeptRefl(m: seq<int>, s: State)
    ensures LiveKept(m, s, m)
  {
  }

  /** The words of live blocks other than `a` are as they were. */
  ghost predicate LiveKeptBut(m: seq<int>, s: State, m': seq<int>, a: nat)
  {
    |m'| == |m| && forall c: nat, k: nat {:trigger LiveWord(s, c, k)} ::
      LiveWord(s, c, k) && c != a && k < |m| ==> m'[k] == m[k]
  }

  lemma KeptButRefl(m: seq<int>, s: State, a: nat)
    ensures LiveKeptBut(m, s, m, a)
  {
  }

  lemma KeptButTrans(m: seq<int>, s: State, m1: seq<int>, m2: seq<int>, a: nat)
    requires LiveKeptBut(m, s, m1, a) && LiveKeptBut(m1, s, m2, a)
    ensures LiveKeptBut(m, s, m2, a)
  {
  }

  lemma LiveFacts(m: seq<int>, head: int, s: State, a: nat)
    requires Rep(m, head, s) && Live(s.b, s.free, a)
    ensures Inv(s.b, s.free, |m|) && a + 1 < |m| && m[a] == s.b[a] && MIN_BLOCK <= s.b[a] && a + s.b[a] <= |m| &&
            BlockOk(s.b, |m|, a)
  {
    assert BlockOk(s.b, |m|, a);
  }

  lemma NoNext(s: State, a: nat)
    requires a in s.b && a + s.b[a] !in s.free
    ensures AfterNext(s, a) == s
  {
  }

  lemma EndNext(m: seq<int>, head: int, s: State, a: nat)
    requires Rep(m, head, s) && a in s.b && a + s.b[a] >= |m|
    ensures AfterNext(s, a) == s
  {
    assert BlockOk(s.b, |m|, a) && BlockOk(s.b, |m|, a + s.b[a]);
  }

  lemma MergeNextRep(m: seq<int>, head: int, s: State, a: nat, i: nat)
    requires Rep(m, head, s) && Live(s.b, s.free, a) && i < |s.free| && s.free[i] == a + s.b[a]
    ensures a + 1 < |m| && s.free[i] + 1 < |m| && (i > 0 ==> s.free[i - 1] + 1 < |m|) && s.free[i] in s.b
    ensures var m1 := m[a := m[a] + m[s.free[i]]];
            && Rep(UnlinkMem(m1, s.free, i), if i == 0 then m1[s.free[i] + 1] else head, AfterNext(s, a))
            && LiveKeptBut(m, s, UnlinkMem(m1, s.free, i), a)
  {
    InRange(m, head, s, i, MIN_BLOCK);
    JoinNextKeeps(s.b, s.free, |m|, a);
    assert BlockOk(s.b, |m|, a);
    RemoveAt(s.free, i);
    MergeNextMem(m, head, s, a, i);
    MergeNextKept(m, head, s, a, i);
    hide LiveKeptBut, Linked, Sizes, UnlinkMem, Tiles, Merged;
  }

  lemma MergeNextMem(m: seq<int>, head: int, s: State, a: nat, i: nat)
    requires Rep(m, head, s) && Live(s.b, s.free, a) && i < |s.free| && s.free[i] == a + s.b[a]
    ensures a + 1 < |m| && s.free[i] + 1 < |m| && (i > 0 ==> s.free[i - 1] + 1 < |m|) && s.free[i] in s.b &&
            s.free[i] != a
    ensures var m1 := m[a := m[a] + m[s.free[i]]]; var m2 := UnlinkMem(m1, s.free, i);
            && Linked(m2, if i == 0 then m1[s.free[i] + 1] else head, s.free[..i] + s.free[i + 1..])
            && Sizes(m2, Join(s.b, a, s.free[i])) && |m2| == |m|
  {
    var c: nat := s.free[i];
    InRange(m, head, s, i, MIN_BLOCK);
    assert BlockOk(s.b, |m|, a) && BlockOk(s.b, |m|, c);
    JoinTiles(s.b, |m|, a);
    var m1, b1 := m[a := m[a] + m[c]], Join(s.b, a, c);
    HeaderLinked(m, head, s, a, m[a] + m[c]);
    UnlinkLinked(m1, head, s.b, s.free, i);
    assert Sizes(m1, b1);
    hide Linked;
    if i > 0 { NextKeepsSizes(m1, b1, |m|, s.free[i - 1], m1[c + 1]); }
  }

  lemma MergeNextKept(m: seq<int>, head: int, s: State, a: nat, i: nat)
    requires Rep(m, head, s) && Live(s.b, s.free, a) && i < |s.free| && s.free[i] == a + s.b[a]
    requires a + 1 < |m| && s.free[i] + 1 < |m| && (i > 0 ==> s.free[i - 1] + 1 < |m|)
    ensures LiveKeptBut(m, s, UnlinkMem(m[a := m[a] + m[s.free[i]]], s.free, i), a)
  {
    var c: nat := s.free[i];
    assert BlockOk(s.b, |m|, a);
    var m1 := m[a := m[a] + m[c]];
    WriteKeptBut(m, s, a, a, a, m[a] + m[c]);
    if i > 0 {
      assert BlockOk(s.b, |m|, s.free[i - 1]);
      WriteKeptBut(m1, s, a, s.free[i - 1], s.free[i - 1] + 1, m1[c + 1]);
      KeptButTrans(m, s, m1, UnlinkMem(m1, s.free, i), a);
    }
  }

  lemma AbsorbRep(m: seq<int>, head: int, s: State, f: nat, a: nat)
    requires Rep(m, head, s) && Live(s.b, s.free, a) && a + s.b[a] !in s.free && f in s.free && EndsAt(s.b, f, a)
    ensures f < |m| && a < |m| && Rep(m[f := m[f] + m[a]], head, State(Join(s.b, f, a), s.free))
    ensures LiveKeptBut(m, s, m[f := m[f] + m[a]], a)
  {
    assert BlockOk(s.b, |m|, f) && BlockOk(s.b, |m|, a);
    JoinPrevKeeps(s.b, s.free, |m|, f, a);
    HeaderLinked(m, head, s, f, m[f] + m[a]);
    WriteKeptBut(m, s, a, f, f, m[f] + m[a]);
  }

  lemma AtStart(s: State, a: nat)
    ensures a == 0 ==> forall f: nat :: !EndsAt(s.b, f, a)
  {
  }

  lemma PushRep(m: seq<int>, head: int, s: State, a: nat)
    requires Rep(m, head, s) && Live(s.b, s.free, a) && a + s.b[a] !in s.free &&
             forall f :: f in s.free ==> !EndsAt(s.b, f, a)
    ensures a + 1 < |m| && Rep(m[a + 1 := head], a, State(s.b, [a] + s.free))
    ensures LiveKeptBut(m, s, m[a + 1 := head], a)
  {
    NextKeepsSizes(m, s.b, |m|, a, head);
    assert BlockOk(s.b, |m|, a);
    WriteKeptBut(m, s, a, a, a + 1, head);
    PushKeeps(s.b, s.free, |m|, a);
    NextLinked(m, head, s.free, a, head);
    var m', free' := m[a + 1 := head], [a] + s.free;
    forall j: nat
      ensures LinkAt(m', free', j)
    {
      if j > 0 { assert LinkAt(m', s.free, j - 1); }
    }
  }

  /** A word inside block `f`, which is `a` or free, is in no other live block. */
  lemma WriteKeptBut(m: seq<int>, s: State, a: nat, f: nat, w: nat, v: int)
    requires Tiles(s.b, |m|) && f in s.b && (f == a || f in s.free) && f <= w < f + s.b[f] && w < |m|
    ensures LiveKeptBut(m, s, m[w := v], a)
  {
    forall c: nat, k: nat | LiveWord(s, c, k) && c != a
      ensures k != w
    {
      if k == w { InOneBlock(s.b, |m|, f, w, c); }
    }
  }

  /** The list does not run through the second word of a block that is not on it. */
  lemma NextLinked(m: seq<int>, head: int, free: seq<nat>, a: nat, v: int)
    requires Linked(m, head, free) && a !in free && a + 1 < |m|
    ensures Linked(m[a + 1 := v], head, free)
  {
    var m' := m[a + 1 := v];
    forall j: nat
      ensures LinkAt(m', free, j)
    {
      assert LinkAt(m, free, j);
    }
  }

  /** Nor through the first word of any block. */
  lemma HeaderLinked(m: seq<int>, head: int, s: State, a: nat, v: int)
    requires Rep(m, head, s) && a in s.b
    ensures a < |m| && Linked(m[a := v], head, s.free)
  {
    var m' := m[a := v];
    forall j: nat
      ensures LinkAt(m', s.free, j)
    {
      assert LinkAt(m, s.free, j);
      if j < |s.free| && s.free[j] != a { Spaced(s.b, |m|, a, s.free[j]); }
    }
  }

  lemma ClearRep(m: seq<int>, head: int, s: State, a: nat)
    requires Rep(m, head, s) && Live(s.b, s.free, a)
    ensures a + 1 < |m| && Rep(m[a + 1 := NULL], head, s) && LiveKeptBut(m, s, m[a + 1 := NULL], a)
  {
    NextKeepsSizes(m, s.b, |m|, a, NULL);
    NextLinked(m, head, s.free, a, NULL);
    assert BlockOk(s.b, |m|, a);
    WriteKeptBut(m, s, a, a, a + 1, NULL);
  }

  lemma StillLive(m: seq<int>, s: State, m2: seq<int>, s2: State, m3: seq<int>, a: nat)
    requires LiveKeptBut(m, s, m2, a) && LiveKeptBut(m2, s2, m3, a) && s2 == AfterNext(s, a) && a in s.b &&
             ListOk(s.b, s.free)
    ensures LiveKeptBut(m, s, m3, a)
  {
    forall c: nat, k: nat | LiveWord(s, c, k) && c != a
      ensures LiveWord(s2, c, k)
    {
      if a + s.b[a] in s.free { RemoveFree(s.b, s.free, a + s.b[a], c); }
    }
  }
}
