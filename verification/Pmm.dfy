/** The physical frame allocator: a packed bitmap, one reference byte a frame and a free
    counter (kernel/mm/pmm.c). A page-aligned physical address is named by its frame number. */
module Pmm {

  const MAX_REFS := 255

  /** Bit `k` of a bitmap byte. */
  function Bit(b: bv8, k: nat): bool
    requires k < 8
  {
    (b >> k) & 1 == 1
  }

  function SetBit(b: bv8, k: nat): bv8
    requires k < 8
  {
    b | (1 << k)
  }

  function ClearBit(b: bv8, k: nat): bv8
    requires k < 8
  {
    b & !((1 as bv8) << k)
  }

  lemma SetBitAt(b: bv8, k: nat, j: nat)
    requires k < 8 && j < 8
    ensures Bit(SetBit(b, k), j) == (j == k || Bit(b, j))
  {
  }

  lemma ClearBitAt(b: bv8, k: nat, j: nat)
    requires k < 8 && j < 8
    ensures Bit(ClearBit(b, k), j) == (j != k && Bit(b, j))
  {
  }

  lemma AllOnes(k: nat)
    requires k < 8
    ensures Bit(0xFF, k)
  {
  }

  /** The number of frames not in use. */
  function FreeCount(used: seq<bool>): nat
  {
    if used == [] then 0 else FreeCount(used[..|used| - 1]) + (if used[|used| - 1] then 0 else 1)
  }

  lemma {:induction false} FreeCountUpdate(used: seq<bool>, p: nat, b: bool)
    requires p < |used|
    ensures FreeCount(used[p := b]) + (if b then 1 else 0) == FreeCount(used) + (if used[p] then 1 else 0)
  {
    var n := |used| - 1;
    if p < n {
      FreeCountUpdate(used[..n], p, b);
      assert used[p := b][..n] == used[..n][p := b];
    } else {
      assert used[p := b][..n] == used[..n];
    }
  }

  lemma {:induction false} FreeCountZero(used: seq<bool>)
    ensures FreeCount(used) == 0 <==> Full(used)
  {
    if used != [] {
      var n := |used| - 1;
      FreeCountZero(used[..n]);
      assert forall p :: 0 <= p < n ==> used[..n][p] == used[p];
    }
  }

  predicate Full(used: seq<bool>)
  {
    forall p :: 0 <= p < |used| ==> used[p]
  }

  /** `n` consecutive free frames start at `p`. */
  predicate RunFree(used: seq<bool>, p: nat, n: nat)
  {
    p + n <= |used| && forall q :: p <= q < p + n ==> !used[q]
  }

  lemma RunOfOne(used: seq<bool>)
    ensures forall p: nat :: RunFree(used, p, 1) <==> p < |used| && !used[p]
    ensures forall p: nat :: p < |used| ==> MarkRun(used, p, 1) == used[p := true]
    ensures forall refs: seq<int>, p: nat :: p < |refs| ==> RefRun(refs, p, 1) == refs[p := 1]
  {
  }

  /** `used` with the `n` frames from `p` marked. */
  function MarkRun(used: seq<bool>, p: nat, n: nat): (r: seq<bool>)
    requires p + n <= |used|
    ensures |r| == |used|
    ensures forall q :: 0 <= q < |used| ==> r[q] == (used[q] || p <= q < p + n)
  {
    seq(|used|, q requires 0 <= q < |used| => used[q] || p <= q < p + n)
  }

  /** `refs` with the `n` frames from `p` given one owner. */
  function RefRun(refs: seq<int>, p: nat, n: nat): (r: seq<int>)
    requires p + n <= |refs|
    ensures |r| == |refs|
    ensures forall q :: 0 <= q < |refs| ==> r[q] == if p <= q < p + n then 1 else refs[q]
  {
    seq(|refs|, q requires 0 <= q < |refs| => if p <= q < p + n then 1 else refs[q])
  }

  /** The allocator as a value: which frames are in use, and their reference counts. */
  datatype Frames = Frames(used: seq<bool>, refs: seq<int>)
  {
    predicate WellFormed()
    {
      |used| == |refs| && forall p :: 0 <= p < |refs| ==> 0 <= refs[p] <= MAX_REFS
    }

    /** pmm_free_page: frames out of range and double frees are ignored. */
    function Free(p: nat): (r: Frames)
    {
      if p < |used| then this.(used := used[p := false]) else this
    }

    /** pmm_page_share: the count saturates at 255. */
    function Share(p: nat): (r: Frames)
      requires WellFormed()
      ensures r.WellFormed() && |r.used| == |used|
    {
      if p < |refs| && refs[p] < MAX_REFS then this.(refs := refs[p := refs[p] + 1]) else this
    }

    /** pmm_page_deref: a count of zero marks a frame the allocator does not own. */
    function Deref(p: nat): (r: Frames)
      requires WellFormed()
      ensures r.WellFormed() && |r.used| == |used|
    {
      if p >= |refs| || refs[p] == 0 then this
      else if refs[p] > 1 then this.(refs := refs[p := refs[p] - 1])
      else this.(refs := refs[p := 0]).Free(p)
    }

    function ShareTimes(p: nat, k: nat): (r: Frames)
      requires WellFormed()
      ensures r.WellFormed() && |r.used| == |used|
    {
      if k == 0 then this else ShareTimes(p, k - 1).Share(p)
    }

    function DerefTimes(p: nat, k: nat): (r: Frames)
      requires WellFormed()
      ensures r.WellFormed() && |r.used| == |used|
    {
      if k == 0 then this else DerefTimes(p, k - 1).Deref(p)
    }
  }

  lemma {:induction false} ShareTimesCount(f: Frames, p: nat, k: nat)
    requires f.WellFormed() && p < |f.used| && f.refs[p] >= 1
    ensures f.ShareTimes(p, k).used == f.used
    ensures f.ShareTimes(p, k).refs[p] == if f.refs[p] + k <= MAX_REFS then f.refs[p] + k else MAX_REFS
  {
    if k > 0 { ShareTimesCount(f, p, k - 1); }
  }

  lemma {:induction false} DerefTimesCount(f: Frames, p: nat, k: nat)
    requires f.WellFormed() && p < |f.used| && f.used[p] && 1 <= f.refs[p]
    ensures f.DerefTimes(p, k).refs[p] == if k < f.refs[p] then f.refs[p] - k else 0
    ensures f.DerefTimes(p, k).used[p] <==> k < f.refs[p]
  {
    if k > 0 { DerefTimesCount(f, p, k - 1); }
  }

  /** Frame `p` is in use through `n - 1` drops and released by the `n`-th. */
  ghost predicate ReleasedAtDrop(f: Frames, p: nat, n: nat)
    requires f.WellFormed() && p < |f.used|
  {
    (forall j: nat :: j < n ==> f.DerefTimes(p, j).used[p]) && !f.DerefTimes(p, n).used[p]
  }

  /** A freshly allocated frame that is shared `k` times is released by drop `k + 1`, and not
      before, exactly when `k` is below 255: the byte saturates. */
  lemma SharedReleasedAtLastDrop(f: Frames, p: nat, k: nat)
    requires f.WellFormed() && p < |f.used| && f.used[p] && f.refs[p] == 1
    ensures ReleasedAtDrop(f.ShareTimes(p, k), p, k + 1) <==> k < MAX_REFS
  {
    var g := f.ShareTimes(p, k);
    ShareTimesCount(f, p, k);
    forall j: nat
      ensures g.DerefTimes(p, j).used[p] <==> j < g.refs[p]
    {
      DerefTimesCount(g, p, j);
    }
    if k >= MAX_REFS {
      assert !g.DerefTimes(p, MAX_REFS).used[p];
    }
  }

  class FrameAllocator {
    const total: nat          // g_total_pages
    const bitmap: array<bv8>  // g_bitmap
    const refs: array<int>    // g_refs, one byte a frame
    var free: nat             // g_free_pages
    ghost var used: seq<bool> // the bitmap, unpacked

    ghost predicate Valid()
      reads this, bitmap, refs
    {
      && |used| == total <= 8 * bitmap.Length
      && refs.Length == total && bitmap as object != refs as object
      && (forall p :: 0 <= p < total ==> used[p] == Bit(bitmap[p / 8], p % 8))
      && (forall p :: 0 <= p < total ==> 0 <= refs[p] <= MAX_REFS)
      && free == FreeCount(used)
    }

    /** pmm_init before it looks at the memory map: every frame in use, none owned. */
    constructor (total: nat)
      ensures Valid() && this.total == total && Full(used) && |used| == total &&
              (forall p :: 0 <= p < total ==> refs[p] == 0)
      ensures fresh(bitmap) && fresh(refs)
    {
      this.total := total;
      bitmap := new bv8[(total + 7) / 8](_ => 0xFF);
      refs := new int[total](_ => 0);
      free := 0;
      used := seq(total, _ => true);
      new;
      FreeCountZero(used);
      forall p | 0 <= p < total
        ensures used[p] == Bit(bitmap[p / 8], p % 8)
      {
        AllOnes(p % 8);
      }
    }

    /** One free region of the memory map, frames `p0` to before `p1`, in pmm_init. */
    method ReleaseRange(p0: nat, p1: nat)
      requires Valid()
      modifies this, bitmap
      ensures Valid() && |used| == |old(used)|
      ensures forall q :: 0 <= q < total ==> used[q] == (old(used)[q] && !(p0 <= q < p1))
    {
      var end := if p1 > total then total else p1;
      var p := p0;
      while p < end
        invariant p0 <= p && Valid() && |used| == |old(used)|
        invariant forall q :: 0 <= q < total ==> used[q] == (old(used)[q] && !(p0 <= q < p && q < end))
      {
        var b := Test(p);
        if b {
          FreeCountUpdate(used, p, false);
          Mark(p, false);
          free := free + 1;
        }
        p := p + 1;
      }
    }

    method Test(p: nat) returns (b: bool)
      requires Valid() && p < total
      ensures b == used[p]
    {
      b := Bit(bitmap[p / 8], p % 8);
    }

    /** bm_set / bm_clear, with the counter left to the caller. */
    method Mark(p: nat, b: bool)
      requires |used| == total <= 8 * bitmap.Length && p < total
      requires forall q :: 0 <= q < total ==> used[q] == Bit(bitmap[q / 8], q % 8)
      modifies this`used, bitmap
      ensures used == old(used)[p := b]
      ensures forall q :: 0 <= q < total ==> used[q] == Bit(bitmap[q / 8], q % 8)
    {
      var i, k := p / 8, p % 8;
      var was := bitmap[i];
      bitmap[i] := if b then SetBit(was, k) else ClearBit(was, k);
      used := used[p := b];
      forall q | 0 <= q < total
        ensures used[q] == Bit(bitmap[q / 8], q % 8)
      {
        if q / 8 == i {
          if b { SetBitAt(was, k, q % 8); } else { ClearBitAt(was, k, q % 8); }
        }
      }
    }

    ghost function View(): Frames
      reads this, refs
    {
      Frames(used, refs[..])
    }

    /** Hands out the free frame `p`: bit set, counter down, one reference. */
    method Take(p: nat)
      requires Valid() && p < total && !used[p]
      modifies this, bitmap, refs
      ensures Valid() && used == old(used)[p := true] && refs[..] == old(refs[..])[p := 1]
    {
      FreeCountUpdate(used, p, true);
      Mark(p, true);
      free := free - 1;
      refs[p] := 1;
    }

    /** pmm_alloc_page: the lowest free frame, or 0 when there is none. */
    method AllocPage() returns (p: nat)
      requires Valid()
      modifies this, bitmap, refs
      ensures Valid()
      ensures Full(old(used)) ==> p == 0 && View() == old(View())
      ensures !Full(old(used)) ==>
                && p < total && !old(used)[p] && (forall q :: 0 <= q < p ==> old(used)[q])
                && used == old(used)[p := true] && refs[..] == old(refs[..])[p := 1]
    {
      p := 0;
      while p < total
        invariant p <= total && Valid() && View() == old(View())
        invariant forall q :: 0 <= q < p ==> used[q]
      {
        var b := Test(p);
        if !b {
          Take(p);
          return;
        }
        p := p + 1;
      }
      p := 0;
    }

    /** pmm_free_page. */
    method FreePage(p: nat)
      requires Valid()
      modifies this, bitmap
      ensures Valid()
      ensures View() == old(View()).Free(p)
    {
      if p >= total { return; }
      var b := Test(p);
      if !b {
        assert used == used[p := false];
        return;
      }
      FreeCountUpdate(used, p, false);
      Mark(p, false);
      free := free + 1;
    }

    /** The skip-ahead search of pmm_alloc_pages finds the lowest run of `n` free frames that a
        frame-by-frame search would find, and gives up only when there is none. */
    method FindRun(n: nat) returns (found: bool, p: nat)
      requires Valid() && n > 0
      ensures found ==> RunFree(used, p, n)
      ensures forall q: nat :: (found ==> q < p) ==> !RunFree(used, q, n)
    {
      p := 0;
      while p + n <= total
        invariant forall q: nat :: q < p ==> !RunFree(used, q, n)
        decreases total - p
      {
        var i := ScanRun(p, n);
        if i == n { return true, p; }
        forall q: nat | p <= q <= p + i
          ensures !RunFree(used, q, n)
        {
          assert q <= p + i < q + n;
        }
        p := p + i + 1;
      }
      found := false;
    }

    /** pmm_alloc_pages. */
    method AllocPages(n: nat) returns (p: nat)
      requires Valid()
      modifies this, bitmap, refs
      ensures Valid()
      ensures n == 0 || (forall q: nat :: !RunFree(old(used), q, n)) ==> p == 0 && View() == old(View())
      ensures n > 0 && (exists q: nat :: RunFree(old(used), q, n)) ==>
                && RunFree(old(used), p, n) && (forall q: nat :: q < p ==> !RunFree(old(used), q, n))
                && used == MarkRun(old(used), p, n) && refs[..] == RefRun(old(refs[..]), p, n)
    {
      if n == 0 { return 0; }
      if n == 1 {
        p := AllocPage();
        RunOfOne(old(used));
        return;
      }
      var found;
      found, p := FindRun(n);
      if found { MarkFrom(p, n); } else { p := 0; }
    }

    /** The inner test loop of pmm_alloc_pages: how many of `n` frames are free before a used one. */
    method ScanRun(p: nat, n: nat) returns (i: nat)
      requires Valid() && p + n <= total
      ensures i <= n && (forall q :: p <= q < p + i ==> !used[q]) && (i < n ==> used[p + i])
    {
      i := 0;
      while i < n
        invariant i <= n && forall q :: p <= q < p + i ==> !used[q]
      {
        var b := Test(p + i);
        if b { return; }
        i := i + 1;
      }
    }

    /** The marking loop of pmm_alloc_pages. */
    method MarkFrom(p: nat, n: nat)
      requires Valid() && RunFree(used, p, n)
      modifies this, bitmap, refs
      ensures Valid() && used == MarkRun(old(used), p, n)
      ensures refs[..] == RefRun(old(refs[..]), p, n)
    {
      var i := 0;
      while i < n
        invariant i <= n && Valid()
        invariant forall q :: 0 <= q < total ==> used[q] == (old(used)[q] || p <= q < p + i)
        invariant forall q :: 0 <= q < total ==> refs[q] == if p <= q < p + i then 1 else old(refs[q])
      {
        ghost var before := refs[..];
        Take(p + i);
        assert forall q :: 0 <= q < total ==> refs[q] == refs[..][q];
        assert forall q :: 0 <= q < total && q != p + i ==> refs[q] == before[q];
        i := i + 1;
      }
    }

    /** reserve_range over the byte range [start, end): every frame the range touches. The
        source's guard against a zero counter never fires. */
    method ReserveRange(start: nat, end: nat)
      requires Valid()
      modifies this, bitmap
      ensures Valid() && |used| == |old(used)|
      ensures forall q :: 0 <= q < total ==>
                used[q] == (old(used)[q] || start / 4096 <= q < (end + 4095) / 4096)
    {
      var p0, p1 := start / 4096, (end + 4095) / 4096;
      if p1 > total { p1 := total; }
      var p := p0;
      while p < p1
        invariant p0 <= p && (p0 <= p1 ==> p <= p1) && (p0 > p1 ==> p == p0)
        invariant Valid() && |used| == |old(used)|
        invariant forall q :: 0 <= q < total ==> used[q] == (old(used)[q] || p0 <= q < p)
      {
        var b := Test(p);
        if !b {
          FreeCountUpdate(used, p, true);
          Mark(p, true);
          if free > 0 { free := free - 1; }
        }
        p := p + 1;
      }
    }

    /** pmm_page_share. */
    method SharePage(p: nat)
      requires Valid()
      modifies refs
      ensures Valid() && View().WellFormed() && old(View()).WellFormed()
      ensures View() == old(View()).Share(p)
    {
      if p < total && refs[p] < MAX_REFS {
        refs[p] := refs[p] + 1;
      }
    }

    /** pmm_page_deref. */
    method DerefPage(p: nat)
      requires Valid()
      modifies this, bitmap, refs
      ensures Valid() && View().WellFormed() && old(View()).WellFormed()
      ensures View() == old(View()).Deref(p)
    {
      if p >= total { return; }
      if refs[p] == 0 { return; }
      refs[p] := refs[p] - 1;
      if refs[p] == 0 {
        FreePage(p);
      }
    }
  }
}
