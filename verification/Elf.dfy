/** Loading the segments of a program into an address space (kernel/proc/elf.c): the windows for
    programs and interpreters, whose pages the loader maps itself. */
module Elf {
  import opened Tiny
  import opened PageTables
  import opened PhysMem
  import opened Pmm
  import opened VmSpec
  import opened VmRange
  import opened Vm
  import opened ElfSpec

  const USER_BASE := 0x4000_0000
  const USER_TOP := 0x4400_0000
  const INTERP_BASE := 0x5000_0000
  const INTERP_TOP := 0x5100_0000
  const LOW_MIN := 0x40_0000
  const LOW_MAX := 0xA0_0000

  // ----- a dedup bitmap -----

  predicate BitOf(bits: seq<bv8>, pg: nat)
  {
    pg / 8 < |bits| && Bit(bits[pg / 8], pg % 8)
  }

  /** Bit `pg` is set exactly if this load has mapped page `base + pg`. */
  ghost predicate BitSays(bits: seq<bv8>, base: nat, h: ElfSpec.Pages, pg: nat)
  {
    pg < 8 * |bits| ==> (BitOf(bits, pg) <==> base + pg in h)
  }

  ghost predicate Agrees(bits: seq<bv8>, base: nat, h: ElfSpec.Pages)
  {
    forall pg: nat {:trigger BitSays(bits, base, h, pg)} :: BitSays(bits, base, h, pg)
  }

  lemma BitSet(bits: seq<bv8>, pg: nat, r: nat)
    requires pg < 8 * |bits| && r < 8 * |bits|
    ensures BitOf(bits[pg / 8 := SetBit(bits[pg / 8], pg % 8)], r) <==> r == pg || BitOf(bits, r)
  {
    hide Bit, SetBit;
    if r / 8 == pg / 8 { SetBitAt(bits[pg / 8], pg % 8, r % 8); }
  }

  lemma AgreesSet(bits: seq<bv8>, base: nat, h: ElfSpec.Pages, pg: nat, f: nat)
    requires Agrees(bits, base, h) && pg < 8 * |bits|
    ensures Agrees(bits[pg / 8 := SetBit(bits[pg / 8], pg % 8)], base, h[base + pg := f])
  {
    hide Bit, SetBit, BitOf;
    var bits' := bits[pg / 8 := SetBit(bits[pg / 8], pg % 8)];
    var h' := h[base + pg := f];
    forall r: nat
      ensures BitSays(bits', base, h', r)
    {
      assert BitSays(bits, base, h, r);
      if r < 8 * |bits| { BitSet(bits, pg, r); }
    }
  }

  /** A page outside a window does not concern its bitmap. */
  lemma AgreesOther(bits: seq<bv8>, base: nat, h: ElfSpec.Pages, q: nat, f: nat)
    requires Agrees(bits, base, h) && (q < base || base + 8 * |bits| <= q)
    ensures Agrees(bits, base, h[q := f])
  {
    var h' := h[q := f];
    forall r: nat
      ensures BitSays(bits, base, h', r)
    {
      assert BitSays(bits, base, h, r);
    }
  }

  class Loader {
    const mach: Machine
    const high: array<bv8>
    const interp: array<bv8>

    constructor (mach: Machine)
      ensures this.mach == mach && high.Length == 2048 && interp.Length == 512 && fresh(high) && fresh(interp) &&
              high != interp
    {
      this.mach := mach;
      high := new bv8[2048](_ => 0);
      interp := new bv8[512](_ => 0);
    }

    ghost predicate Shape()
      reads mach
    {
      && high.Length == 2048 && interp.Length == 512 && high != interp
      && high as object !in mach.Repr() && interp as object !in mach.Repr() && mach !in mach.Repr()
    }

    ghost function All(): set<object>
    {
      mach.Repr() + {high, interp}
    }

    /** Each page of this load has its own frame, and nothing else has changed since it began at `s0`. */
    ghost predicate Core(s0: Sys, d0: Dir, d: Dir, h: ElfSpec.Pages)
      reads mach, mach.ram, mach.ram.tabs, mach.ram.bytes, mach.pmm, mach.pmm.bitmap, mach.pmm.refs
    {
      && mach.Valid() && mach.root != 0 && mach.Current(d) && Loaded(mach.S(), d, h)
      && Sane(s0) && |s0.m| == |mach.S().m| && Confined(s0, d0, mach.S(), d, h)
    }

    /** The bitmaps agree with what this load has mapped. */
    ghost predicate Bits(h: ElfSpec.Pages)
      reads high, interp
    {
      Agrees(high[..], USER_BASE / 4096, h) && Agrees(interp[..], INTERP_BASE / 4096, h)
    }

    ghost predicate Valid(s0: Sys, d0: Dir, d: Dir, h: ElfSpec.Pages)
      reads mach, mach.ram, mach.ram.tabs, mach.ram.bytes, mach.pmm, mach.pmm.bitmap, mach.pmm.refs, high, interp
    {
      Shape() && Core(s0, d0, d, h) && Bits(h)
    }

    /** Why the page of `a` cannot be mapped: frames have run out, or a 1 GiB leaf is in the way. */
    ghost predicate Stuck(d: Dir, a: nat)
      reads mach.ram, mach.pmm
    {
      mach.pmm.free <= 1 || Giant(mach.ram.m, d, PageOf(a))
    }

    /** Page `r` is outside the windows, or cannot be mapped. */
    ghost predicate Refused(d: Dir, r: nat)
      reads mach.ram, mach.pmm
    {
      !InWindow(r * 4096) || Stuck(d, r * 4096)
    }

    /** A segment cannot be loaded: its end wraps round, its bytes are not in the file, or one of its pages
        is refused. */
    ghost predicate Bad(img: seq<byte>, vaddr: nat, memsz: nat, off: nat, filesz: nat, d: Dir)
      reads mach.ram, mach.pmm
    {
      || vaddr + memsz >= WORD || (filesz != 0 && off + filesz > |img|)
      || exists r: nat :: vaddr / 4096 <= r < (vaddr + memsz + 4095) / 4096 && Refused(d, r)
    }

    ghost predicate BadAt(img: seq<byte>, ph: Ph, bias: nat, d: Dir)
      reads mach.ram, mach.pmm
    {
      Counts(ph) && Bad(img, ph.vaddr + bias, ph.memsz, ph.off, ph.filesz, d)
    }

    /** elf_load_bitmaps_reset, at the start of a load. */
    method Reset(ghost d: Dir)
      requires Shape() && mach.Valid() && mach.root != 0 && mach.Current(d)
      modifies high, interp
      ensures mach.S() == old(mach.S()) && Valid(mach.S(), d, d, map[])
    {
      Clear(high, USER_BASE / 4096);
      Clear(interp, INTERP_BASE / 4096);
      NothingLoaded(mach.S(), d);
    }

    method Clear(bits: array<bv8>, ghost base: nat)
      modifies bits
      ensures Agrees(bits[..], base, map[])
    {
      var i := 0;
      while i < bits.Length
        invariant 0 <= i <= bits.Length && forall j :: 0 <= j < i ==> bits[j] == 0
      {
        bits[i] := 0;
        i := i + 1;
      }
      forall pg: nat
        ensures BitSays(bits[..], base, map[], pg)
      {
      }
    }

    /** ensure_user_page_high, and the part of ensure_user_page for interpreters. */
    method EnsureIn(bits: array<bv8>, base: nat, virt: nat, ghost s0: Sys, ghost d0: Dir, ghost d: Dir,
        ghost h: ElfSpec.Pages)
      returns (ok: bool, ghost d': Dir, ghost h': ElfSpec.Pages)
      requires Valid(s0, d0, d, h) && base <= virt && virt / 4096 < PAGES
      requires (bits == high && base == USER_BASE) || (bits == interp && base == INTERP_BASE)
      modifies All()
      ensures Shape() && mach.Valid()
      ensures ok ==>
              Valid(s0, d0, d', h') && h'.Keys == h.Keys + {virt / 4096} && Put(old(mach.S()), h, mach.S(), h', 0, [])
      ensures !ok ==> virt % 4096 != 0 || virt - base >= 32768 * bits.Length || Stuck(d', virt)
    {
      d', h' := d, h;
      var pg := (virt - base) / 4096;
      if pg / 8 >= bits.Length { return false, d, h; }
      assert BitSays(bits[..], base / 4096, h, pg);
      if Bit(bits[pg / 8], pg % 8) {
        PutNone(mach.S(), h, 0);
        return true, d, h;
      }
      ok, d', h' := MapNew(bits, base, pg, virt, s0, d0, d, h);
    }

    /** A fresh zeroed page at `virt`, noted in the bitmap. */
    method MapNew(bits: array<bv8>, ghost base: nat, pg: nat, virt: nat, ghost s0: Sys, ghost d0: Dir, ghost d: Dir,
        ghost h: ElfSpec.Pages)
      returns (ok: bool, ghost d': Dir, ghost h': ElfSpec.Pages)
      requires Valid(s0, d0, d, h) && base <= virt && virt / 4096 < PAGES && pg == (virt - base) / 4096 &&
               pg < 8 * bits.Length
      requires (bits == high && base == USER_BASE) || (bits == interp && base == INTERP_BASE)
      requires virt / 4096 !in h
      modifies All()
      ensures Shape() && mach.Valid()
      ensures ok ==>
              Valid(s0, d0, d', h') && h'.Keys == h.Keys + {virt / 4096} && Put(old(mach.S()), h, mach.S(), h', 0, [])
      ensures !ok ==> virt % 4096 != 0 || Stuck(d', virt)
    {
      hide Core, Bits, Put, Stuck;
      ok, d', h' := MapFresh(virt, s0, d0, d, h);
      if ok {
        Note(bits, base, pg, h, h'[virt / 4096]);
      }
    }

    method MapFresh(virt: nat, ghost s0: Sys, ghost d0: Dir, ghost d: Dir, ghost h: ElfSpec.Pages)
      returns (ok: bool, ghost d': Dir, ghost h': ElfSpec.Pages)
      requires Core(s0, d0, d, h) && virt / 4096 < PAGES && virt / 4096 !in h
      modifies mach.Repr()
      ensures mach.Valid()
      ensures ok ==>
              Core(s0, d0, d', h') && virt / 4096 in h' && h' == h[virt / 4096 := h'[virt / 4096]] &&
              Put(old(mach.S()), h, mach.S(), h', 0, [])
      ensures !ok ==> virt % 4096 != 0 || Stuck(d', virt)
    {
      assert Top in d;
      hide Giant, Mapped, Space, Owned, View, PageNo, TakenPage, Confined, Loaded, Put, Sane;
      h' := h;
      ghost var q, f, s1 := virt / 4096, 0, mach.S();
      ok, f, s1, d' := mach.AllocAndMap(virt, UserFlags(), d);
      if ok {
        MapsAll(s0, d0, old(mach.S()), d, h, q, f, s1, mach.S(), d');
        h' := h[q := f];
      }
    }

    /** The bit of page `base / 4096 + pg` set, once the page has frame `f`. */
    method Note(bits: array<bv8>, ghost base: nat, pg: nat, ghost h: ElfSpec.Pages, ghost f: nat)
      requires high != interp && high.Length == 2048 && interp.Length == 512 && Bits(h) && pg < 8 * bits.Length
      requires (bits == high && base == USER_BASE) || (bits == interp && base == INTERP_BASE)
      modifies bits
      ensures Bits(h[base / 4096 + pg := f])
    {
      hide Agrees, Bit, SetBit;
      ghost var q, was := base / 4096 + pg, bits[..];
      bits[pg / 8] := SetBit(bits[pg / 8], pg % 8);
      assert bits[..] == was[pg / 8 := SetBit(was[pg / 8], pg % 8)];
      AgreesSet(was, base / 4096, h, pg, f);
      if bits == high {
        AgreesOther(interp[..], INTERP_BASE / 4096, h, q, f);
      } else {
        AgreesOther(high[..], USER_BASE / 4096, h, q, f);
      }
    }

    /** ensure_user_page on an address outside the identity-mapped low window. */
    method EnsureUserPage(virt: nat, ghost s0: Sys, ghost d0: Dir, ghost d: Dir, ghost h: ElfSpec.Pages)
      returns (ok: bool, ghost d': Dir, ghost h': ElfSpec.Pages)
      requires Valid(s0, d0, d, h) && !(LOW_MIN <= virt < LOW_MAX)
      modifies All()
      ensures Shape() && mach.Valid()
      ensures ok ==>
              InWindow(virt) && Valid(s0, d0, d', h') && h'.Keys == h.Keys + {virt / 4096} &&
              Put(old(mach.S()), h, mach.S(), h', 0, [])
      ensures !ok ==> virt % 4096 != 0 || !InWindow(virt) || Stuck(d', virt)
    {
      hide Core, Bits, Put, Stuck;
      d', h' := d, h;
      if USER_BASE <= virt < USER_TOP {
        ok, d', h' := EnsureIn(high, USER_BASE, virt, s0, d0, d, h);
      } else if INTERP_BASE <= virt < INTERP_TOP {
        ok, d', h' := EnsureIn(interp, INTERP_BASE, virt, s0, d0, d, h);
      } else {
        assert mach.Valid() by { CoreValid(s0, d0, d, h); }
        ok := false;
      }
    }

    lemma CoreValid(s0: Sys, d0: Dir, d: Dir, h: ElfSpec.Pages)
      requires Core(s0, d0, d, h)
      ensures mach.Valid()
    {
    }

    /** The first loop of map_segment: every page from number `q` to before `e` is mapped. */
    method MapPages(q: nat, e: nat, ghost s0: Sys, ghost d0: Dir, ghost d: Dir, ghost h: ElfSpec.Pages)
      returns (ok: bool, ghost d': Dir, ghost h': ElfSpec.Pages)
      requires Valid(s0, d0, d, h) && (e * 4096 <= LOW_MIN || LOW_MAX <= q * 4096)
      modifies All()
      ensures Shape() && mach.Valid()
      ensures ok ==> Valid(s0, d0, d', h') && Put(old(mach.S()), h, mach.S(), h', 0, [])
      ensures ok ==> forall r: nat {:trigger r in h'} :: r in h' <==> r in h || q <= r < e
      ensures !ok ==> exists r: nat :: q <= r < e && Refused(d', r)
    {
      hide Core, Bits, Put, Stuck;
      CoreValid(s0, d0, d, h);
      d', h' := d, h;
      var i := q;
      PutNone(mach.S(), h, 0);
      while i < e
        invariant q <= i && (i <= e || i == q) && Valid(s0, d0, d', h') && Put(old(mach.S()), h, mach.S(), h', 0, [])
        invariant forall r: nat {:trigger r in h'} :: r in h' <==> r in h || q <= r < i
      {
        ghost var s1, h1 := mach.S(), h';
        ok, d', h' := EnsureUserPage(i * 4096, s0, d0, d', h');
        if !ok {
          assert Refused(d', i);
          return;
        }
        assert forall r: nat :: r in h' <==> r in h1 || r == i by { assert forall r: nat :: r in h' <==> r in h'.Keys; }
        PutThen(old(mach.S()), h, s1, h1, mach.S(), h', 0, []);
        i := i + 1;
      }
      CoreValid(s0, d0, d', h');
      ok := true;
    }

    /** Where the byte at `va` is in physical memory. */
    method Locate(va: nat, ghost s0: Sys, ghost d0: Dir, ghost d: Dir, ghost h: ElfSpec.Pages) returns (dst: nat)
      requires Core(s0, d0, d, h) && va / 4096 in h
      ensures dst / 4096 == h[va / 4096] && dst % 4096 == va % 4096
    {
      hide Space, Owned, View, PageNo, Confined, Loaded, Sane, Pmm.FrameAllocator.Valid, PhysMem.Ram.Valid;
      var page := va / 4096 * 4096;
      var phys := mach.VirtToPhys(page, d);
      Situated(mach.S(), d, h, va, page);
      dst := Target(phys, va - page, va);
    }

    /** One round of the copying loops of map_segment: bytes of one page, written through its frame. */
    method PutChunk(va: nat, b: seq<byte>, ghost s0: Sys, ghost d0: Dir, ghost d: Dir, ghost h: ElfSpec.Pages)
      requires Core(s0, d0, d, h) && va / 4096 in h && va % 4096 + |b| <= 4096
      modifies mach.Repr()
      ensures Core(s0, d0, d, h) && Put(old(mach.S()), h, mach.S(), h, va, b)
    {
      hide Space, Confined, Loaded, Put, Overlay;
      var dst := Locate(va, s0, d0, d, h);
      Writes(s0, d0, mach.S(), d, h, va / 4096, va % 4096, b);
      mach.WriteBytes(dst / 4096, dst % 4096, b);
      assert mach.S() == Wrote(old(mach.S()), h[va / 4096], va % 4096, b);
    }

    /** A copying loop of map_segment: page by page. */
    method PutAll(va: nat, b: seq<byte>, ghost s0: Sys, ghost d0: Dir, ghost d: Dir, ghost h: ElfSpec.Pages)
      requires Core(s0, d0, d, h) && forall a: nat {:trigger Ready(h, a)} :: va <= a < va + |b| ==> Ready(h, a)
      modifies mach.Repr()
      ensures Core(s0, d0, d, h) && Put(old(mach.S()), h, mach.S(), h, va, b)
    {
      hide Core, Put;
      var done := 0;
      PutNone(mach.S(), h, va);
      while done < |b|
        invariant done <= |b| && Core(s0, d0, d, h) && Put(old(mach.S()), h, mach.S(), h, va, b[..done])
      {
        var at := va + done;
        var chunk := 4096 - at % 4096;
        if chunk > |b| - done { chunk := |b| - done; }
        ghost var s1 := mach.S();
        assert Ready(h, at);
        PutChunk(at, b[done..done + chunk], s0, d0, d, h);
        PutMore(old(mach.S()), h, s1, h, mach.S(), h, va, b[..done], b[done..done + chunk]);
        assert b[..done] + b[done..done + chunk] == b[..done + chunk];
        done := done + chunk;
      }
      assert b[..done] == b;
    }

    /** The copying loops of map_segment: the file's part, then zeros to the end. */
    method CopySegment(vaddr: nat, memsz: nat, img: seq<byte>, off: nat, filesz: nat, ghost s0: Sys, ghost d0: Dir,
        ghost d: Dir, ghost h: ElfSpec.Pages)
      requires Core(s0, d0, d, h) && InFile(img, Ph(Load, off, vaddr, filesz, memsz))
      requires forall a: nat {:trigger Ready(h, a)} :: vaddr <= a < vaddr + memsz ==> Ready(h, a)
      modifies mach.Repr()
      ensures Core(s0, d0, d, h)
      ensures Laid(old(mach.S()), h, mach.S(), h, vaddr, img, Ph(Load, off, vaddr, filesz, memsz))
    {
      hide Core, Put, Laid;
      var b, z := if filesz == 0 then [] else img[off..off + filesz], seq(memsz - filesz, _ => 0);
      PutAll(vaddr, b, s0, d0, d, h);
      ghost var s1 := mach.S();
      PutAll(vaddr + filesz, z, s0, d0, d, h);
      PutMore(old(mach.S()), h, s1, h, mach.S(), h, vaddr, b, z);
      LaidBy(old(mach.S()), h, mach.S(), h, vaddr, img, Ph(Load, off, vaddr, filesz, memsz), b, z);
    }

    /** map_segment, for a segment that is not larger in the file than in memory. */
    method MapSegment(vaddr: nat, memsz: nat, img: seq<byte>, off: nat, filesz: nat, ghost s0: Sys, ghost d0: Dir,
        ghost d: Dir, ghost h: ElfSpec.Pages)
      returns (ok: bool, ghost d': Dir, ghost h': ElfSpec.Pages)
      requires Valid(s0, d0, d, h) && SegOk(Ph(Load, off, vaddr, filesz, memsz), 0)
      modifies All()
      ensures Shape() && mach.Valid()
      ensures ok ==> InFile(img, Ph(Load, off, vaddr, filesz, memsz)) && Valid(s0, d0, d', h')
      ensures ok ==>
              forall a: nat {:trigger ElfSpec.At(mach.S(), h', a)} ::
                ElfSpec.At(mach.S(), h', a) ==
                if vaddr <= a < vaddr + filesz then img[off + (a - vaddr)] as int
                else if vaddr + filesz <= a < vaddr + memsz then 0
                else ElfSpec.At(old(mach.S()), h, a)
      ensures ok ==>
              forall a: nat {:trigger Found(mach.S(), d', img, off, filesz, vaddr, memsz, a)} ::
                Found(mach.S(), d', img, off, filesz, vaddr, memsz, a)
      ensures ok ==>
              forall r: nat {:trigger r in h'} ::
              r in h' <==> r in h || vaddr / 4096 <= r < (vaddr + memsz + 4095) / 4096
      ensures !ok ==> Bad(img, vaddr, memsz, off, filesz, d')
    {
      hide Core, Bits, Put, Refused;
      CoreValid(s0, d0, d, h);
      d', h' := d, h;
      if vaddr + memsz >= WORD { return false, d, h; }
      ok, d', h' := MapPages(vaddr / 4096, (vaddr + memsz + 4095) / 4096, s0, d0, d, h);
      if !ok { return; }
      ghost var s1 := mach.S();
      AllReady(vaddr, memsz, h');
      if filesz != 0 && (off + filesz) % WORD > |img| { return false, d', h'; }
      CopySegment(vaddr, memsz, img, off, filesz, s0, d0, d', h');
      LaidThen(old(mach.S()), h, s1, h', mach.S(), h', vaddr, img, Ph(Load, off, vaddr, filesz, memsz));
      CoreValid(s0, d0, d', h');
      Seen(vaddr, memsz, img, off, filesz, old(mach.S()), h, s0, d0, d', h');
    }

    /** What is laid in mapped pages is what the processor finds there. */
    lemma Seen(vaddr: nat, memsz: nat, img: seq<byte>, off: nat, filesz: nat, s: Sys, h: ElfSpec.Pages, s0: Sys,
        d0: Dir, d: Dir, h': ElfSpec.Pages)
      requires Core(s0, d0, d, h') && Laid(s, h, mach.S(), h', vaddr, img, Ph(Load, off, vaddr, filesz, memsz))
      requires forall a: nat {:trigger Ready(h', a)} :: vaddr <= a < vaddr + memsz ==> Ready(h', a)
      ensures forall a: nat {:trigger Found(mach.S(), d, img, off, filesz, vaddr, memsz, a)} ::
              Found(mach.S(), d, img, off, filesz, vaddr, memsz, a)
    {
      assert Top in d;
      hide Space, Confined, Loaded, Reads, Sane, Pmm.FrameAllocator.Valid, PhysMem.Ram.Valid;
      forall a: nat
        ensures Found(mach.S(), d, img, off, filesz, vaddr, memsz, a)
      {
        if vaddr <= a < vaddr + memsz {
          assert Ready(h', a);
          ReadsAt(mach.S(), d, h', a);
        }
      }
    }

    /** load_loads: every PT_LOAD in turn. */
    method LoadLoads(img: seq<byte>, phs: seq<Ph>, phoff: nat, bias: nat, ghost s0: Sys, ghost d0: Dir, ghost d: Dir,
        ghost h: ElfSpec.Pages)
      returns (ok: bool, base: nat, end: nat, phdr: nat, ghost d': Dir, ghost h': ElfSpec.Pages)
      requires Valid(s0, d0, d, h) && SegsOk(phs, bias)
      modifies All()
      ensures Shape() && mach.Valid()
      ensures ok ==> Valid(s0, d0, d', h') && Image(img, phs, bias, |phs|, old(mach.S()), h, mach.S(), h')
      ensures ok ==> base == LowOf(phs, bias, |phs|) != NONE && end == HighOf(phs, bias, |phs|)
      ensures ok ==>
              phdr == if PhdrOf(phs, bias, |phs|) == 0 && phoff != 0 then base + phoff else PhdrOf(phs, bias, |phs|)
      ensures !ok ==> LowOf(phs, bias, |phs|) == NONE || exists i :: 0 <= i < |phs| && BadAt(img, phs[i], bias, d')
    {
      hide Core, Bits, Put, Image, Laid, Found, Bad;
      CoreValid(s0, d0, d, h);
      base, end, phdr, d', h' := NONE, 0, 0, d, h;
      var i := 0;
      ImageNone(img, phs, bias, mach.S(), h);
      while i < |phs|
        invariant 0 <= i <= |phs| && Valid(s0, d0, d', h') && Image(img, phs, bias, i, old(mach.S()), h, mach.S(), h')
        invariant base == LowOf(phs, bias, i) && end == HighOf(phs, bias, i) && phdr == PhdrOf(phs, bias, i)
      {
        var ph := phs[i];
        if ph.kind == Phdr {
          phdr := ph.vaddr + bias;
          ImageSkip(img, phs, bias, i, old(mach.S()), h, mach.S(), h');
        } else if ph.kind != Load || ph.memsz == 0 {
          ImageSkip(img, phs, bias, i, old(mach.S()), h, mach.S(), h');
        } else {
          var va := ph.vaddr + bias;
          ghost var s1, h1 := mach.S(), h';
          ok, d', h' := MapSegment(va, ph.memsz, img, ph.off, ph.filesz, s0, d0, d', h');
          if !ok {
            assert BadAt(img, phs[i], bias, d');
            return;
          }
          Moved(s1, h1, mach.S(), h', img, ph, bias);
          ImageMore(img, phs, bias, i, old(mach.S()), h, s1, h1, mach.S(), h');
          if va < base { base := va; }
          if va + ph.memsz > end { end := va + ph.memsz; }
        }
        i := i + 1;
      }
      CoreValid(s0, d0, d', h');
      if base == NONE { return false, base, end, phdr, d', h'; }
      if phdr == 0 && phoff != 0 { phdr := base + phoff; }
      ok := true;
    }

    /** elf_load_image, from the parsed headers on. */
    method LoadImage(img: seq<byte>, phs: seq<Ph>, phoff: nat, ghost d: Dir)
      returns (ok: bool, base: nat, end: nat, phdr: nat, ghost d': Dir, ghost h: ElfSpec.Pages)
      requires Shape() && mach.Valid() && mach.root != 0 && mach.Current(d) && SegsOk(phs, 0)
      modifies All()
      ensures Shape() && mach.Valid()
      ensures ok ==> Valid(old(mach.S()), d, d', h) && Image(img, phs, 0, |phs|, old(mach.S()), map[], mach.S(), h)
      ensures ok ==> base == LowOf(phs, 0, |phs|) && end == HighOf(phs, 0, |phs|)
      ensures ok ==>
              phdr == if PhdrOf(phs, 0, |phs|) == 0 && phoff != 0 then base + phoff else PhdrOf(phs, 0, |phs|)
      ensures !ok ==> LowOf(phs, 0, |phs|) == NONE || exists i :: 0 <= i < |phs| && BadAt(img, phs[i], 0, d')
    {
      hide Core, Bits, Image, BadAt;
      Reset(d);
      ok, base, end, phdr, d', h := LoadLoads(img, phs, phoff, 0, mach.S(), d, d, map[]);
    }

    /** elf_load_dynamic, from the parsed headers on: the program, then its interpreter, with one reset
        before both. */
    method LoadDynamic(img: seq<byte>, phs: seq<Ph>, phoff: nat, img2: seq<byte>, phs2: seq<Ph>, phoff2: nat,
        ghost d: Dir)
      returns (ok: bool, end: nat, ghost s1: Sys, ghost h1: ElfSpec.Pages, ghost d': Dir, ghost h: ElfSpec.Pages)
      requires Shape() && mach.Valid() && mach.root != 0 && mach.Current(d)
      requires SegsOk(phs, BiasOf(phs, USER_BASE)) && SegsOk(phs2, BiasOf(phs2, INTERP_BASE))
      modifies All()
      ensures Shape() && mach.Valid()
      ensures ok ==>
              Valid(old(mach.S()), d, d', h) &&
              Image(img, phs, BiasOf(phs, USER_BASE), |phs|, old(mach.S()), map[], s1, h1) &&
              Image(img2, phs2, BiasOf(phs2, INTERP_BASE), |phs2|, s1, h1, mach.S(), h)
      ensures ok ==>
              forall a: nat ::
              (CoveredBy(phs, BiasOf(phs, USER_BASE), |phs|, a) ||
               CoveredBy(phs2, BiasOf(phs2, INTERP_BASE), |phs2|, a)) ==> a < end
      ensures ok && end > 0 ==>
              CoveredBy(phs, BiasOf(phs, USER_BASE), |phs|, end - 1) ||
              CoveredBy(phs2, BiasOf(phs2, INTERP_BASE), |phs2|, end - 1)
      ensures !ok ==>
              || LowOf(phs, BiasOf(phs, USER_BASE), |phs|) == NONE
              || LowOf(phs2, BiasOf(phs2, INTERP_BASE), |phs2|) == NONE
              || (exists i :: 0 <= i < |phs| && BadAt(img, phs[i], BiasOf(phs, USER_BASE), d'))
              || (exists i :: 0 <= i < |phs2| && BadAt(img2, phs2[i], BiasOf(phs2, INTERP_BASE), d'))
    {
      hide Core, Bits, Image, CoveredBy, BadAt, LowOf, HighOf, SegsOk, BiasOf;
      ghost var s0 := mach.S();
      Reset(d);
      var bias, bias2 := BiasOf(phs, USER_BASE), BiasOf(phs2, INTERP_BASE);
      var base, phdr;
      end := 0;
      ok, base, end, phdr, d', h := LoadLoads(img, phs, phoff, bias, s0, d, d, map[]);
      s1, h1 := mach.S(), h;
      if !ok { return; }
      var end2;
      ok, base, end2, phdr, d', h := LoadLoads(img2, phs2, phoff2, bias2, s0, d, d', h);
      if end2 > end { end := end2; }
      EndOf(phs, bias);
      EndOf(phs2, bias2);
    }
  }

  predicate InWindow(virt: nat)
  {
    USER_BASE <= virt < USER_TOP || INTERP_BASE <= virt < INTERP_TOP
  }

  ghost predicate Ready(h: ElfSpec.Pages, a: nat)
  {
    a / 4096 in h
  }

  /** If `a` is in a segment at `lo`, the processor finds there the file's byte or, past the file's part, zero. */
  ghost predicate Found(s: Sys, d: Dir, img: seq<byte>, off: nat, filesz: nat, lo: nat, memsz: nat, a: nat)
  {
    lo <= a < lo + memsz ==>
      && Top in d
      && (a - lo < filesz ==> off + (a - lo) < |img| && Reads(s, d, a, img[off + (a - lo)] as int))
      && (a - lo >= filesz ==> Reads(s, d, a, 0))
  }

  const WORD := 0x1_0000_0000_0000_0000

  /** A segment is not larger in the file than in memory, its pages are not in the low window, and neither
      its file range nor its end rounded up to a page wraps round. */
  predicate SegOk(ph: Ph, bias: nat)
  {
    var lo := ph.vaddr + bias;
    && ph.filesz <= ph.memsz && ph.off + ph.filesz < WORD && lo < WORD
    && ((lo + ph.memsz + 4095) / 4096 * 4096 <= LOW_MIN || LOW_MAX <= lo / 4096 * 4096)
    && (lo + ph.memsz < WORD ==> lo + ph.memsz + 4095 < WORD)
  }

  /** The source's test that a segment is in the file, in 64 bits, lets in nothing else if and only if the sum
      does not wrap, or wraps to more than the file has. */
  lemma FileTest(off: nat, filesz: nat, size: nat)
    requires off < WORD && filesz < WORD && size < WORD
    ensures ((off + filesz) % WORD <= size ==> off + filesz <= size) <==>
            off + filesz < WORD || off + filesz - WORD > size
  {
    if off + filesz >= WORD { assert (off + filesz) % WORD == off + filesz - WORD; }
  }

  /** Two bytes from the last offset there is pass for a file of one byte. */
  lemma FileTestWraps()
    ensures (WORD - 1 + 2) % WORD <= 1 && WORD - 1 + 2 > 1
  {
  }

  predicate SegsOk(phs: seq<Ph>, bias: nat)
  {
    forall i :: 0 <= i < |phs| && Counts(phs[i]) ==> SegOk(phs[i], bias)
  }

  /** elf_load_dynamic places a program linked below 1 MiB at `base`. */
  function BiasOf(phs: seq<Ph>, base: nat): nat
  {
    if LowOf(phs, 0, |phs|) < 0x10_0000 then base else 0
  }

  lemma EndOf(phs: seq<Ph>, bias: nat)
    ensures forall a: nat :: CoveredBy(phs, bias, |phs|, a) ==> a < HighOf(phs, bias, |phs|)
    ensures HighOf(phs, bias, |phs|) > 0 ==> CoveredBy(phs, bias, |phs|, HighOf(phs, bias, |phs|) - 1)
  {
    Extent(phs, bias, |phs|);
    hide HighOf, LowOf;
  }

  /** That is: it moves up by `base` if one of its segments starts below 1 MiB, and stays otherwise. */
  lemma BiasIs(phs: seq<Ph>, base: nat)
    ensures BiasOf(phs, base) ==
            if exists i :: 0 <= i < |phs| && Counts(phs[i]) && phs[i].vaddr < 0x10_0000 then base else 0
  {
    LowBelow(phs, |phs|, 0x10_0000);
  }

  /** The bytes of a segment do not depend on where it goes. */
  lemma Moved(s: Sys, h: ElfSpec.Pages, s': Sys, h': ElfSpec.Pages, img: seq<byte>, ph: Ph, bias: nat)
    requires InFile(img, ph)
    requires forall a: nat {:trigger ElfSpec.At(s', h', a)} ::
             ElfSpec.At(s', h', a) ==
             if ph.vaddr + bias <= a < ph.vaddr + bias + ph.filesz then img[ph.off + (a - ph.vaddr - bias)] as int
             else if ph.vaddr + bias + ph.filesz <= a < ph.vaddr + bias + ph.memsz then 0
             else ElfSpec.At(s, h, a)
    ensures Laid(s, h, s', h', ph.vaddr + bias, img, ph)
  {
  }

  lemma AllReady(vaddr: nat, memsz: nat, h: ElfSpec.Pages)
    requires forall r: nat {:trigger r in h} :: vaddr / 4096 <= r < (vaddr + memsz + 4095) / 4096 ==> r in h
    ensures forall a: nat {:trigger Ready(h, a)} :: vaddr <= a < vaddr + memsz ==> Ready(h, a)
  {
    forall a: nat | vaddr <= a < vaddr + memsz
      ensures Ready(h, a)
    {
      CoversPage(vaddr, memsz, a);
    }
  }

  /** The address a byte is written to: through the page tables if its page is mapped. */
  function Target(phys: nat, off: nat, va: nat): nat
  {
    if phys != 0 then phys + off else va
  }

  lemma Situated(s: Sys, d: Dir, h: ElfSpec.Pages, va: nat, page: nat)
    requires Loaded(s, d, h) && va / 4096 in h && page == va / 4096 * 4096
    ensures var dst := Target(PhysOf(View(s.m, d, PageOf(page)), page), va - page, va);
            dst / 4096 == h[va / 4096] && dst % 4096 == va % 4096
  {
    hide PageNo, View;
    assert PageIn(s, d, h, va / 4096);
    assert page / 4096 == va / 4096 && page % 4096 == 0;
  }

  lemma NothingLoaded(s: Sys, d: Dir)
    ensures Loaded(s, d, map[]) && Confined(s, d, s, d, map[])
  {
    forall q: nat
      ensures PageIn(s, d, map[], q) && NewFrame(s, map[], q)
    {
    }
    forall x: Pos
      ensures OldTable(s, d, d, x)
    {
    }
    forall f: nat
      ensures KeptUsed(s, s, f) && KeptFrame(s, d, s, f)
    {
    }
    forall v: Page
      ensures SameElse(s, d, s, d, map[], v)
    {
    }
  }
}
