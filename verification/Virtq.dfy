/** A split virtqueue (section 2.6 of VIRTIO 1.1) between the network driver and a conforming device:
    who owns each descriptor (kernel/drv/virtio_net.c). */
module Virtq {

  const QSZ := 64
  const U16 := 0x1_0000
  const NIL := 0xFFFF

  // ----- ownership -----

  /** Where the descriptors are: on the free list, in the driver's hand, posted in the available
      ring, held by the device, or used and not yet reclaimed. */
  datatype Q = Q(free: seq<nat>, hand: seq<nat>, posted: seq<nat>, held: seq<nat>, done: seq<nat>)
  {
    function All(): seq<nat>
    {
      free + hand + posted + held + done
    }
  }

  function Times(s: seq<nat>, d: nat): nat
  {
    multiset(s)[d]
  }

  /** In how many places descriptor `d` is. */
  function Total(q: Q, d: nat): nat
  {
    Times(q.free, d) + Times(q.hand, d) + Times(q.posted, d) + Times(q.held, d) + Times(q.done, d)
  }

  /** Every descriptor is in one place, once. */
  ghost predicate Once(q: Q)
  {
    forall d: nat {:trigger Total(q, d)} :: Total(q, d) == if d < QSZ then 1 else 0
  }

  /** vq_alloc_desc. */
  function Taken(q: Q): Q
    requires |q.free| > 0
  {
    q.(free := q.free[1..], hand := q.hand + [q.free[0]])
  }

  /** A descriptor goes into the available ring. */
  function Posted(q: Q): Q
    requires |q.hand| > 0
  {
    q.(hand := q.hand[1..], posted := q.posted + [q.hand[0]])
  }

  /** The device takes the next available descriptor. */
  function Seen(q: Q): Q
    requires |q.posted| > 0
  {
    q.(posted := q.posted[1..], held := q.held + [q.posted[0]])
  }

  /** The device is done with one it holds, in any order. */
  function Used(q: Q, i: nat): Q
    requires i < |q.held|
  {
    q.(held := q.held[..i] + q.held[i + 1..], done := q.done + [q.held[i]])
  }

  /** A used descriptor goes back on the free list (vq_free_desc). */
  function Reclaimed(q: Q): Q
    requires |q.done| > 0
  {
    q.(done := q.done[1..], free := [q.done[0]] + q.free)
  }

  /** A used receive descriptor is taken, to be posted again. */
  function Received(q: Q): Q
    requires |q.done| > 0
  {
    q.(done := q.done[1..], hand := q.hand + [q.done[0]])
  }

  /** What the driver and a conforming device can do, in any order. */
  ghost predicate Step(q: Q, q': Q)
  {
    || (|q.free| > 0 && q' == Taken(q)) || (|q.hand| > 0 && q' == Posted(q)) || (|q.posted| > 0 && q' == Seen(q))
    || (exists i: nat :: i < |q.held| && q' == Used(q, i))
    || (|q.done| > 0 && (q' == Reclaimed(q) || q' == Received(q)))
  }

  lemma TimesCut(s: seq<nat>, i: nat, d: nat)
    requires i < |s|
    ensures Times(s[..i] + s[i + 1..], d) + (if s[i] == d then 1 else 0) == Times(s, d)
  {
    assert s == s[..i] + [s[i]] + s[i + 1..];
  }

  lemma TimesFirst(s: seq<nat>, d: nat)
    requires |s| > 0
    ensures Times(s[1..], d) + (if s[0] == d then 1 else 0) == Times(s, d)
  {
    assert s == [s[0]] + s[1..];
  }

  lemma TimesAdd(s: seq<nat>, x: nat, d: nat)
    ensures Times(s + [x], d) == Times(s, d) + (if x == d then 1 else 0)
    ensures Times([x] + s, d) == Times(s, d) + (if x == d then 1 else 0)
  {
  }

  lemma TakenTotal(q: Q, d: nat)
    requires |q.free| > 0
    ensures Total(Taken(q), d) == Total(q, d)
  {
    hide Times;
    TimesFirst(q.free, d);
    TimesAdd(q.hand, q.free[0], d);
  }

  lemma PostedTotal(q: Q, d: nat)
    requires |q.hand| > 0
    ensures Total(Posted(q), d) == Total(q, d)
  {
    hide Times;
    TimesFirst(q.hand, d);
    TimesAdd(q.posted, q.hand[0], d);
  }

  lemma SeenTotal(q: Q, d: nat)
    requires |q.posted| > 0
    ensures Total(Seen(q), d) == Total(q, d)
  {
    hide Times;
    TimesFirst(q.posted, d);
    TimesAdd(q.held, q.posted[0], d);
  }

  lemma UsedTotal(q: Q, i: nat, d: nat)
    requires i < |q.held|
    ensures Total(Used(q, i), d) == Total(q, d)
  {
    hide Times;
    TimesCut(q.held, i, d);
    TimesAdd(q.done, q.held[i], d);
  }

  lemma BackTotal(q: Q, d: nat)
    requires |q.done| > 0
    ensures Total(Reclaimed(q), d) == Total(q, d) && Total(Received(q), d) == Total(q, d)
  {
    hide Times;
    TimesFirst(q.done, d);
    TimesAdd(q.free, q.done[0], d);
    TimesAdd(q.hand, q.done[0], d);
  }

  /** A step takes a descriptor from one place to another. */
  lemma StepTotal(q: Q, q': Q, d: nat)
    requires Step(q, q')
    ensures Total(q', d) == Total(q, d)
  {
    hide Taken, Posted, Seen, Used, Reclaimed, Received, Total;
    if |q.free| > 0 { TakenTotal(q, d); }
    if |q.hand| > 0 { PostedTotal(q, d); }
    if |q.posted| > 0 { SeenTotal(q, d); }
    if |q.done| > 0 { BackTotal(q, d); }
    if i: nat :| i < |q.held| && q' == Used(q, i) { UsedTotal(q, i, d); }
  }

  lemma StepKeeps(q: Q, q': Q)
    requires Once(q) && Step(q, q')
    ensures Once(q')
  {
    hide Step, Total;
    forall d: nat
      ensures Total(q', d) == if d < QSZ then 1 else 0
    {
      StepTotal(q, q', d);
      assert Total(q, d) == if d < QSZ then 1 else 0;
    }
  }

  /** In every run of driver and device each descriptor is in exactly one place. */
  lemma {:induction false} RunKeeps(run: seq<Q>, k: nat)
    requires |run| > 0 && Once(run[0]) && k < |run| && forall i :: 0 <= i < |run| - 1 ==> Step(run[i], run[i + 1])
    ensures Once(run[k])
  {
    hide Step;
    if k > 0 {
      RunKeeps(run, k - 1);
      StepKeeps(run[k - 1], run[k]);
    }
  }

  function Upto(n: nat): (s: seq<nat>)
    ensures |s| == n && forall i :: 0 <= i < n ==> s[i] == i
  {
    seq(n, i => i)
  }

  lemma {:induction false} UptoOnce(n: nat, d: nat)
    ensures multiset(Upto(n))[d] == if d < n then 1 else 0
  {
    if n > 0 {
      UptoOnce(n - 1, d);
      assert Upto(n) == Upto(n - 1) + [n - 1];
    }
  }

  /** So the places together have QSZ descriptors. */
  lemma Sizes(q: Q)
    requires Once(q)
    ensures |q.free| + |q.hand| + |q.posted| + |q.held| + |q.done| == QSZ
  {
    forall d: nat
      ensures multiset(q.All())[d] == multiset(Upto(QSZ))[d]
    {
      assert multiset(q.All())[d] == Total(q, d);
      UptoOnce(QSZ, d);
    }
    assert multiset(q.All()) == multiset(Upto(QSZ));
    assert |multiset(q.All())| == |q.All()| && |multiset(Upto(QSZ))| == |Upto(QSZ)|;
  }

  lemma InRange(q: Q, s: seq<nat>, i: nat)
    requires Once(q) && i < |s| && (s == q.free || s == q.hand || s == q.posted || s == q.held || s == q.done)
    ensures s[i] < QSZ
  {
    assert s[i] in multiset(s);
    assert Total(q, s[i]) > 0;
  }

  // ----- the queue in memory -----

  /** The concrete queue: descriptor links, both rings, and the indices, all 16 bits wide; with the
      unbounded counts of what was ever posted, taken, used and reclaimed. */
  datatype Mem = Mem(next: seq<nat>, freeHead: nat, numFree: nat, avail: seq<nat>, availIdx: nat, used: seq<nat>,
      usedIdx: nat, lastUsed: nat)

  datatype Counts = Counts(posted: nat, taken: nat, used: nat, reclaimed: nat)

  predicate LinkAt(next: seq<nat>, free: seq<nat>, i: nat)
  {
    i < |free| ==> free[i] < |next| && next[free[i]] == (if i + 1 < |free| then free[i + 1] else NIL)
  }

  ghost predicate Links(next: seq<nat>, free: seq<nat>)
  {
    forall i: nat {:trigger LinkAt(next, free, i)} :: LinkAt(next, free, i)
  }

  predicate RingAt(ring: seq<nat>, from: nat, w: seq<nat>, i: nat)
  {
    i < |w| ==> |ring| == QSZ && ring[(from + i) % QSZ] == w[i]
  }

  /** The ring holds `w` in the slots from count `from` on. */
  ghost predicate Window(ring: seq<nat>, from: nat, w: seq<nat>)
  {
    forall i: nat {:trigger RingAt(ring, from, w, i)} :: RingAt(ring, from, w, i)
  }

  /** The rings hold what is posted and what is used, at the counts modulo the ring size; the 16-bit
      indices are the counts modulo 2^16. */
  ghost predicate Rep(m: Mem, c: Counts, q: Q)
  {
    && |m.next| == |m.avail| == |m.used| == QSZ && m.numFree == |q.free|
    && m.freeHead == (if q.free == [] then NIL else q.free[0])
    && Links(m.next, q.free)
    && c.posted == c.taken + |q.posted| && c.used == c.reclaimed + |q.done|
    && m.availIdx == c.posted % U16 && m.usedIdx == c.used % U16 && m.lastUsed == c.reclaimed % U16
    && Window(m.avail, c.taken, q.posted) && Window(m.used, c.reclaimed, q.done)
    && Once(q)
  }

  /** A 16-bit index falls on the same ring slot as the count it stands for. */
  lemma SlotOf(n: nat)
    ensures n % U16 % QSZ == n % QSZ
  {
    assert n == n / U16 * U16 + n % U16;
    assert U16 == 1024 * QSZ;
    assert n / U16 * U16 == (n / U16 * 1024) * QSZ;
  }

  /** Two counts at most QSZ apart are equal if their 16-bit indices are. */
  lemma IdxEqual(a: nat, b: nat)
    requires a <= b <= a + QSZ
    ensures a % U16 == b % U16 <==> a == b
  {
  }

  /** The slot for the next entry is none of those still in the window. */
  lemma SlotFree(from: nat, n: nat, i: nat)
    requires n < QSZ && i < n
    ensures (from + i) % QSZ != (from + n) % QSZ
  {
  }

  lemma IdxNext(n: nat)
    ensures (n % U16 + 1) % U16 == (n + 1) % U16
  {
  }

  // ----- each step in memory -----

  lemma TwiceIn(s: seq<nat>, i: nat, j: nat)
    requires i < j < |s|
    ensures s[i] == s[j] ==> Times(s, s[i]) >= 2
  {
    assert s == s[..i] + [s[i]] + s[i + 1..j] + [s[j]] + s[j + 1..];
  }

  lemma FreeDistinct(q: Q, i: nat, j: nat)
    requires Once(q) && i < j < |q.free|
    ensures q.free[i] != q.free[j]
  {
    TwiceIn(q.free, i, j);
    assert Total(q, q.free[i]) <= 1;
  }

  lemma RingShift(ring: seq<nat>, from: nat, w: seq<nat>)
    requires |w| > 0 && Window(ring, from, w)
    ensures |ring| == QSZ && ring[from % QSZ] == w[0] && Window(ring, from + 1, w[1..])
  {
    assert RingAt(ring, from, w, 0);
    var r, next := w[1..], from + 1;
    forall i: nat
      ensures RingAt(ring, next, r, i)
    {
      assert RingAt(ring, from, w, i + 1);
    }
  }

  lemma RingAppend(ring: seq<nat>, from: nat, w: seq<nat>, x: nat)
    requires |ring| == QSZ && |w| < QSZ && Window(ring, from, w)
    ensures Window(ring[(from + |w|) % QSZ := x], from, w + [x])
  {
    var ring', w' := ring[(from + |w|) % QSZ := x], w + [x];
    forall i: nat
      ensures RingAt(ring', from, w', i)
    {
      assert RingAt(ring, from, w, i);
      if i < |w| { SlotFree(from, |w|, i); }
    }
  }

  function MemAlloc(m: Mem): Mem
    requires m.freeHead < |m.next| && m.numFree > 0
  {
    m.(freeHead := m.next[m.freeHead], numFree := m.numFree - 1, next := m.next[m.freeHead := 0])
  }

  lemma AllocRep(m: Mem, c: Counts, q: Q)
    requires Rep(m, c, q) && m.numFree > 0
    ensures m.freeHead < QSZ && m.freeHead == q.free[0] && Rep(MemAlloc(m), c, Taken(q))
  {
    hide Window;
    assert LinkAt(m.next, q.free, 0);
    var next, free := m.next[q.free[0] := 0], q.free[1..];
    forall i: nat
      ensures LinkAt(next, free, i)
    {
      assert LinkAt(m.next, q.free, i + 1);
      if i + 1 < |q.free| { FreeDistinct(q, 0, i + 1); }
    }
    StepKeeps(q, Taken(q));
    hide Once;
  }

  function MemPost(m: Mem, d: nat): Mem
    requires |m.avail| == QSZ
  {
    m.(avail := m.avail[m.availIdx % QSZ := d], availIdx := (m.availIdx + 1) % U16)
  }

  /** Posting writes a slot that the device has consumed. */
  lemma PostRep(m: Mem, c: Counts, q: Q)
    requires Rep(m, c, q) && |q.hand| > 0
    ensures Rep(MemPost(m, q.hand[0]), c.(posted := c.posted + 1), Posted(q))
  {
    hide Window, Links;
    Sizes(q);
    SlotOf(c.posted);
    IdxNext(c.posted);
    RingAppend(m.avail, c.taken, q.posted, q.hand[0]);
    StepKeeps(q, Posted(q));
    hide Once;
  }

  /** The device takes the next posted descriptor; memory does not change. */
  lemma SeenRep(m: Mem, c: Counts, q: Q)
    requires Rep(m, c, q) && |q.posted| > 0
    ensures m.avail[c.taken % QSZ] == q.posted[0] && Rep(m, c.(taken := c.taken + 1), Seen(q))
  {
    hide Window, Links;
    RingShift(m.avail, c.taken, q.posted);
    StepKeeps(q, Seen(q));
    hide Once;
  }

  function MemUse(m: Mem, d: nat): Mem
    requires |m.used| == QSZ
  {
    m.(used := m.used[m.usedIdx % QSZ := d], usedIdx := (m.usedIdx + 1) % U16)
  }

  /** The device writes a slot that the driver has consumed. */
  lemma UseRep(m: Mem, c: Counts, q: Q, i: nat)
    requires Rep(m, c, q) && i < |q.held|
    ensures Rep(MemUse(m, q.held[i]), c.(used := c.used + 1), Used(q, i))
  {
    hide Window, Links;
    Sizes(q);
    SlotOf(c.used);
    IdxNext(c.used);
    RingAppend(m.used, c.reclaimed, q.done, q.held[i]);
    StepKeeps(q, Used(q, i));
    hide Once;
  }

  /** What the driver reads at `last_used`. */
  lemma UsedNext(m: Mem, c: Counts, q: Q)
    requires Rep(m, c, q)
    ensures m.lastUsed == m.usedIdx <==> q.done == []
    ensures q.done != [] ==> m.used[m.lastUsed % QSZ] == q.done[0] && q.done[0] < QSZ
  {
    Sizes(q);
    IdxEqual(c.reclaimed, c.used);
    SlotOf(c.reclaimed);
    if q.done != [] {
      RingShift(m.used, c.reclaimed, q.done);
      InRange(q, q.done, 0);
    }
  }

  function MemFree(m: Mem, d: nat): Mem
    requires d < |m.next|
  {
    m.(next := m.next[d := m.freeHead], freeHead := d, numFree := m.numFree + 1, lastUsed := (m.lastUsed + 1) % U16)
  }

  lemma DoneNotFree(q: Q, i: nat)
    requires Once(q) && q.done != [] && i < |q.free|
    ensures q.free[i] != q.done[0]
  {
    var d := q.done[0];
    assert Times(q.done, d) > 0 by { assert d in multiset(q.done); }
    assert Total(q, d) <= 1;
    assert Times(q.free, q.free[i]) > 0 by { assert q.free[i] in multiset(q.free); }
  }

  lemma FreeRep(m: Mem, c: Counts, q: Q)
    requires Rep(m, c, q) && q.done != []
    ensures q.done[0] < QSZ && Rep(MemFree(m, q.done[0]), c.(reclaimed := c.reclaimed + 1), Reclaimed(q))
  {
    hide Window;
    InRange(q, q.done, 0);
    RingShift(m.used, c.reclaimed, q.done);
    IdxNext(c.reclaimed);
    StepKeeps(q, Reclaimed(q));
    var next, free := m.next[q.done[0] := m.freeHead], [q.done[0]] + q.free;
    forall i: nat
      ensures LinkAt(next, free, i)
    {
      if i > 0 {
        assert LinkAt(m.next, q.free, i - 1);
        if i - 1 < |q.free| { DoneNotFree(q, i - 1); }
      }
    }
    hide Once;
  }

  lemma ReceiveRep(m: Mem, c: Counts, q: Q)
    requires Rep(m, c, q) && q.done != []
    ensures Rep(m.(lastUsed := (m.lastUsed + 1) % U16), c.(reclaimed := c.reclaimed + 1), Received(q))
  {
    hide Window, Links;
    RingShift(m.used, c.reclaimed, q.done);
    IdxNext(c.reclaimed);
    StepKeeps(q, Received(q));
    hide Once;
  }

  // ----- the driver -----

  function ChainTo(i: nat): nat
  {
    if i == QSZ - 1 then NIL else i + 1
  }

  lemma FreshRep()
    ensures Rep(Mem(seq(QSZ, (i: nat) => ChainTo(i)), 0, QSZ, seq(QSZ, _ => 0), 0, seq(QSZ, _ => 0), 0, 0),
                Counts(0, 0, 0, 0), Q(Upto(QSZ), [], [], [], []))
  {
    var next, q := seq(QSZ, (i: nat) => ChainTo(i)), Q(Upto(QSZ), [], [], [], []);
    forall i: nat
      ensures LinkAt(next, q.free, i)
    {
    }
    forall d: nat
      ensures Total(q, d) == if d < QSZ then 1 else 0
    {
      UptoOnce(QSZ, d);
    }
  }

  class VirtQueue {
    const next: array<nat>
    const avail: array<nat>
    const used: array<nat>
    var freeHead: nat
    var numFree: nat
    var availIdx: nat
    var usedIdx: nat
    var lastUsed: nat
    ghost var c: Counts
    ghost var q: Q

    ghost function M(): Mem
      reads this, next, avail, used
    {
      Mem(next[..], freeHead, numFree, avail[..], availIdx, used[..], usedIdx, lastUsed)
    }

    ghost predicate Valid()
      reads this, next, avail, used
    {
      next != avail && next != used && avail != used && Rep(M(), c, q)
    }

    /** vq_alloc. */
    constructor ()
      ensures Valid() && fresh(next) && fresh(avail) && fresh(used) && q == Q(Upto(QSZ), [], [], [], [])
    {
      next := new nat[QSZ]((i: nat) => ChainTo(i));
      avail := new nat[QSZ](_ => 0);
      used := new nat[QSZ](_ => 0);
      freeHead, numFree, availIdx, usedIdx, lastUsed := 0, QSZ, 0, 0, 0;
      c, q := Counts(0, 0, 0, 0), Q(Upto(QSZ), [], [], [], []);
      new;
      FreshRep();
      assert next[..] == seq(QSZ, (i: nat) => ChainTo(i)) && avail[..] == seq(QSZ, _ => 0) &&
        used[..] == seq(QSZ, _ => 0);
    }

    /** vq_alloc_desc. */
    method AllocDesc() returns (d: nat)
      requires Valid()
      modifies this, next
      ensures Valid() && c == old(c)
      ensures d == NIL <==> old(q).free == []
      ensures if d == NIL then q == old(q) else old(q).free != [] && d == old(q).free[0] && q == Taken(old(q))
    {
      if numFree == 0 { return NIL; }
      AllocRep(M(), c, q);
      hide Rep;
      d := freeHead;
      freeHead := next[d];
      numFree := numFree - 1;
      next[d] := 0;
      q := Taken(q);
    }

    /** The descriptor in hand into the available ring. */
    method Post(d: nat)
      requires Valid() && q.hand == [d]
      modifies this, avail
      ensures Valid() && q == Posted(old(q))
    {
      PostRep(M(), c, q);
      hide Rep;
      avail[availIdx % QSZ] := d;
      availIdx := (availIdx + 1) % U16;
      c, q := c.(posted := c.posted + 1), Posted(q);
    }

    /** A conforming device takes the next available descriptor. */
    ghost method DeviceTake()
      requires Valid() && q.posted != []
      modifies this
      ensures Valid() && q == Seen(old(q))
    {
      SeenRep(M(), c, q);
      c, q := c.(taken := c.taken + 1), Seen(q);
    }

    /** A conforming device returns one of the descriptors it holds. */
    method DeviceUse(d: nat, ghost i: nat)
      requires Valid() && i < |q.held| && q.held[i] == d
      modifies this, used
      ensures Valid() && q == Used(old(q), i)
    {
      UseRep(M(), c, q, i);
      hide Rep;
      used[usedIdx % QSZ] := d;
      usedIdx := (usedIdx + 1) % U16;
      c, q := c.(used := c.used + 1), Used(q, i);
    }

    /** One round of the reclaim loop in virtio_net_send. */
    method ReclaimOne() returns (any: bool)
      requires Valid()
      modifies this, next
      ensures Valid() && (any <==> old(q).done != []) && q == if any then Reclaimed(old(q)) else old(q)
    {
      UsedNext(M(), c, q);
      if lastUsed == usedIdx { return false; }
      FreeRep(M(), c, q);
      hide Rep;
      var id := used[lastUsed % QSZ];
      next[id] := freeHead;
      freeHead := id;
      numFree := numFree + 1;
      lastUsed := (lastUsed + 1) % U16;
      c, q := c.(reclaimed := c.reclaimed + 1), Reclaimed(q);
      any := true;
    }

    /** virtio_net_send, the ring part: what the device is done with is reclaimed, and one descriptor is
        posted unless the device has them all. */
    method Send() returns (ok: bool)
      requires Valid() && q.hand == []
      modifies this, next, avail
      ensures Valid() && q.hand == [] && q.done == [] && q.held == old(q).held
      ensures ok <==> |old(q).free| + |old(q).done| > 0
      ensures old(q).posted <= q.posted && |q.posted| == |old(q).posted| + (if ok then 1 else 0)
    {
      hide Rep;
      var more := true;
      while more
        invariant Valid() && q.hand == [] && q.held == old(q).held && q.posted == old(q).posted
        invariant |q.free| + |q.done| == |old(q).free| + |old(q).done| && (!more ==> q.done == [])
        decreases |q.done|, more
      {
        more := ReclaimOne();
      }
      var d := AllocDesc();
      if d == NIL { return false; }
      Post(d);
      ok := true;
    }

    /** virtio_net_recv, the ring part: the oldest used descriptor is read and posted again. */
    method Receive() returns (any: bool, id: nat)
      requires Valid() && q.hand == []
      modifies this, avail
      ensures Valid() && (any <==> old(q).done != [])
      ensures !any ==> q == old(q)
      ensures any ==> id == old(q).done[0] && q == Posted(Received(old(q)))
    {
      UsedNext(M(), c, q);
      id := 0;
      if lastUsed == usedIdx { return false, id; }
      ReceiveRep(M(), c, q);
      hide Rep;
      id := used[lastUsed % QSZ];
      lastUsed := (lastUsed + 1) % U16;
      c, q := c.(reclaimed := c.reclaimed + 1), Received(q);
      Post(id);
      any := true;
    }

    /** rx_refill_all: every free descriptor is posted. */
    method Refill()
      requires Valid() && q.hand == []
      modifies this, next, avail
      ensures Valid() && q.hand == [] && q.free == [] && q.posted == old(q).posted + old(q).free &&
              q.held == old(q).held && q.done == old(q).done
    {
      hide Rep;
      NumFreeIs();
      while numFree > 0
        invariant Valid() && q.hand == [] && q.posted + q.free == old(q).posted + old(q).free && numFree == |q.free|
        invariant q.held == old(q).held && q.done == old(q).done
        decreases |q.free|
      {
        var d := AllocDesc();
        Post(d);
        NumFreeIs();
      }
    }

    lemma NumFreeIs()
      requires Valid()
      ensures numFree == |q.free|
    {
    }
  }
}
