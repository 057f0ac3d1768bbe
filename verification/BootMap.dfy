/** The boot loader's page table: identity map, higher-half copy, kernel and framebuffer (src/boot/main.c). */
module BootMap {
  import opened Common
  import opened PageTree
  import opened PageAddr
  import opened FrameLedger
  import opened FlatSpec
  import opened PageTables

  /** PML_LOWER_TO_HIGHER, on 64-bit addresses. */
  function LowerToHigher(p: Addr): Addr { (p + HIGHER_HALF_START) % ADDR_LIMIT }

  function BytesToPages(n: Addr): nat { (n + PAGE_SIZE - 1) % ADDR_LIMIT / PAGE_SIZE }

  // ---- the bump allocator -------------------------------------------------------------------------

  /** basic_allocator: frames of one reserved buffer, handed out in order and never taken back. */
  class BasicAllocator {
    var buffer: Addr
    var maxPages: nat
    var pagesAllocated: nat

    ghost predicate Valid()
      reads this
    {
      pagesAllocated <= maxPages && buffer % PAGE_SIZE == 0 && buffer + maxPages * PAGE_SIZE <= PFN_LIMIT * PAGE_SIZE
    }

    ghost predicate Unused(p: nat)
      reads this
    {
      buffer / PAGE_SIZE + pagesAllocated <= p
    }

    /** Frames not handed out yet. */
    ghost function Left(): set<Pfn>
      requires Valid()
      reads this
    {
      set p: nat | buffer / PAGE_SIZE + pagesAllocated <= p < buffer / PAGE_SIZE + maxPages && Unused(p)
    }

    /** None stands for panic_halt. The frames given are new, pairwise different, and gone afterwards. */
    method AllocPages(amount: nat) returns (r: Option<seq<Pfn>>)
      requires Valid()
      modifies this`pagesAllocated
      ensures Valid()
      ensures r.None? <==> old(pagesAllocated) + amount > maxPages
      ensures r.None? ==> pagesAllocated == old(pagesAllocated)
      ensures r.Some? ==>
        && |r.value| == amount && Distinct(r.value)
        && Members(r.value) <= old(Left()) && Left() == old(Left()) - Members(r.value)
    {
      if pagesAllocated + amount > maxPages { return None; }
      var pfns: seq<Pfn> := [];
      var i := 0;
      while i < amount
        invariant 0 <= i <= amount && |pfns| == i
        invariant forall j :: 0 <= j < i ==> pfns[j] == buffer / PAGE_SIZE + pagesAllocated + j
      {
        var addr := buffer + (pagesAllocated + i) * PAGE_SIZE;
        assert addr / PAGE_SIZE == buffer / PAGE_SIZE + pagesAllocated + i;
        pfns := pfns + [addr / PAGE_SIZE];
        i := i + 1;
      }
      ghost var first := buffer / PAGE_SIZE + pagesAllocated;
      forall p: Pfn | first <= p < first + amount ensures p in Members(pfns) { assert pfns[p - first] == p; }
      pagesAllocated := pagesAllocated + amount;
      return Some(pfns);
    }

    /** As the page table's allocPages callback: what PageTable.AllocPage promises, with Left() for the pool, and a
        halt only when nothing is left. */
    method AllocPage() returns (r: Option<Pfn>)
      requires Valid()
      modifies this`pagesAllocated
      ensures Valid() && (r.None? <==> old(Left()) == {})
      ensures r.None? ==> Left() == old(Left())
      ensures r.Some? ==> r.value in old(Left()) && Left() == old(Left()) - {r.value}
    {
      ghost var next := buffer / PAGE_SIZE + pagesAllocated;
      assert pagesAllocated < maxPages ==> Unused(next) && next in Left();
      var pfns := AllocPages(1);
      if pfns.None? { return None; }
      assert pfns.value == [pfns.value[0]] && Members(pfns.value) == {pfns.value[0]};
      return Some(pfns.value[0]);
    }
  }

  // ---- ranges that stay mapped --------------------------------------------------------------------

  /** A successful mapping, seen later: page i of the range still leads to frame i, with the flags asked for. */
  ghost predicate Holds(f: FlatMap, addr: Addr, frames: seq<Pfn>, flags: Flags) {
    Total(f) && forall i: nat :: i < |frames| ==> f[PageAt(addr, i)].flags == flags && f[PageAt(addr, i)].pfn == frames[i]
  }

  /** Nothing is mapped but pages of the given regions, each with its region's flags. */
  ghost predicate Only(f: FlatMap, regions: set<Region>) {
    forall v: Vpn :: v in f && (f[v].Present() ==> exists r :: r in regions && r.Covers(v) && f[v].flags == r.flags)
  }

  lemma MappedHolds(f0: FlatMap, l0: Ledger, f: FlatMap, l: Ledger, addr: Addr, frames: seq<Pfn>, flags: Flags)
    requires MappedPrefix(f0, l0, f, l, addr, frames, |frames|, flags, CALLBACK_NONE)
    ensures Holds(f, addr, frames, flags) && |frames| <= PAGE_LIMIT
  {
    MappedShows(f0, l0, f, l, addr, frames, |frames|, flags, CALLBACK_NONE);
  }

  /** A later mapping takes only absent pages, so it disturbs no earlier one. */
  lemma HoldsKept(f0: FlatMap, l0: Ledger, f: FlatMap, l: Ledger, addr: Addr, frames: seq<Pfn>, n: nat, flags: Flags,
      addr0: Addr, frames0: seq<Pfn>, flags0: Flags)
    requires MappedPrefix(f0, l0, f, l, addr, frames, n, flags, CALLBACK_NONE)
    requires Holds(f0, addr0, frames0, flags0) && flags0.present
    ensures Holds(f, addr0, frames0, flags0)
  {
    forall i: nat | i < |frames0| ensures f[PageAt(addr0, i)] == f0[PageAt(addr0, i)] {
      assert f0[PageAt(addr0, i)].Present();
    }
  }

  lemma OnlyKept(f0: FlatMap, l0: Ledger, f: FlatMap, l: Ledger, r: Region, n: nat, regions: set<Region>)
    requires MappedPrefix(f0, l0, f, l, r.virt, FramesFrom(r.phys, r.pages), n, r.flags, CALLBACK_NONE)
    requires Only(f0, regions)
    ensures Only(f, regions + {r})
  {
    hide Offset;
    forall v: Vpn | f[v].Present()
      ensures exists b :: b in regions + {r} && b.Covers(v) && f[v].flags == b.flags
    {
      if r.Covers(v) && Offset(r.virt, v) < n {
        assert r in regions + {r} && f[v].flags == r.flags;
      } else {
        var b :| b in regions && b.Covers(v) && f0[v].flags == b.flags;
        assert b in regions + {r};
      }
    }
  }

  /** What keeps a region from being mapped: it is longer than the address space, or meets one mapped before. */
  ghost predicate Obstructed(r: Region, before: set<Region>) {
    r.pages > PAGE_LIMIT || exists b, v: Vpn :: b in before && b.Covers(v) && r.Covers(v)
  }

  lemma StoppedBy(f0: FlatMap, l0: Ledger, f: FlatMap, l: Ledger, r: Region, n: nat, before: set<Region>)
    requires MappedPrefix(f0, l0, f, l, r.virt, FramesFrom(r.phys, r.pages), n, r.flags, CALLBACK_NONE)
    requires Only(f0, before) && n != r.pages && f[PageAt(r.virt, n)].Present()
    ensures Obstructed(r, before)
  {
    hide PageAt, Offset;
    if r.pages <= PAGE_LIMIT {
      var v := PageAt(r.virt, n);
      OffsetPageAt(r.virt, n);
      assert f[v] == f0[v];
      var b :| b in before && b.Covers(v);
      assert r.Covers(v);
    }
  }

  lemma OnlyNone(f: FlatMap)
    requires Blank(f)
    ensures Only(f, {})
  {}

  // ---- mem_page_table_init ------------------------------------------------------------------------

  datatype Descriptor = Descriptor(physicalStart: Addr, virtualStart: Addr, numberOfPages: Addr)

  /** mem_map_init: every descriptor gets its higher-half address. */
  method AssignAddresses(descs: seq<Descriptor>) returns (r: seq<Descriptor>)
    ensures |r| == |descs|
    ensures forall i :: 0 <= i < |r| ==>
      r[i] == descs[i].(virtualStart := (descs[i].physicalStart + HIGHER_HALF_START) % ADDR_LIMIT)
  {
    r := [];
    for i := 0 to |descs|
      invariant |r| == i
      invariant forall j :: 0 <= j < i ==> r[j] == descs[j].(virtualStart := LowerToHigher(descs[j].physicalStart))
    {
      r := r + [descs[i].(virtualStart := LowerToHigher(descs[i].physicalStart))];
    }
  }

  method MaxPhysicalAddress(descs: seq<Descriptor>) returns (max: Addr)
    ensures forall d :: d in descs ==> (d.physicalStart + d.numberOfPages * PAGE_SIZE) % ADDR_LIMIT <= max
    ensures max == 0 || exists d :: d in descs && (d.physicalStart + d.numberOfPages * PAGE_SIZE) % ADDR_LIMIT == max
    ensures (forall d :: d in descs ==> d.physicalStart % PAGE_SIZE == 0) ==> max <= ADDR_LIMIT - PAGE_SIZE
  {
    max := 0;
    for i := 0 to |descs|
      invariant forall d :: d in descs[..i] ==> (d.physicalStart + d.numberOfPages * PAGE_SIZE) % ADDR_LIMIT <= max
      invariant max == 0 ||
        exists d :: d in descs[..i] && (d.physicalStart + d.numberOfPages * PAGE_SIZE) % ADDR_LIMIT == max
    {
      assert descs[..i + 1] == descs[..i] + [descs[i]] && descs[i] in descs[..i + 1];
      var regionEnd := (descs[i].physicalStart + descs[i].numberOfPages * PAGE_SIZE) % ADDR_LIMIT;
      if regionEnd > max { max := regionEnd; }
    }
    assert descs[..|descs|] == descs;
    if max != 0 {
      ghost var d :| d in descs && (d.physicalStart + d.numberOfPages * PAGE_SIZE) % ADDR_LIMIT == max;
      if d.physicalStart % PAGE_SIZE == 0 { WholePages(d.physicalStart, d.numberOfPages); }
    }
  }

  lemma WholePages(start: Addr, pages: nat)
    requires start % PAGE_SIZE == 0
    ensures (start + pages * PAGE_SIZE) % ADDR_LIMIT <= ADDR_LIMIT - PAGE_SIZE
  {
    assert (start + pages * PAGE_SIZE) % PAGE_SIZE == 0;
  }

  const KERNEL_FLAGS := NONE.(write := true, present := true)
  const GOP_FLAGS := KERNEL_FLAGS.(writeThrough := true)

  datatype Region = Region(virt: Addr, phys: Addr, pages: nat, flags: Flags)
  {
    ghost predicate Covers(v: Vpn) { Offset(virt, v) < pages }
  }

  ghost predicate Mapped(f: FlatMap, r: Region) {
    r.pages <= PAGE_LIMIT && Holds(f, r.virt, FramesFrom(r.phys, r.pages), r.flags)
  }

  function HigherHalf(d: Descriptor): Region { Region(d.virtualStart, d.physicalStart, d.numberOfPages, KERNEL_FLAGS) }

  datatype Outcome = Booted | Halted(code: nat)

  ghost predicate Ready(t: PageTable)
    reads t
  {
    t.Valid() && t.Accounts()
  }

  /** page_table_map of one region; the regions mapped before stay as they are, and nothing else is mapped. */
  method MapRegion(t: PageTable, r: Region, ghost before: set<Region>) returns (ok: bool)
    requires Ready(t) && r.flags.present && !r.flags.owned && Only(t.View(), before)
    requires forall b :: b in before ==> Mapped(t.View(), b) && b.flags.present
    modifies t
    ensures Ready(t) && Only(t.View(), before + {r})
    ensures ok ==> Mapped(t.View(), r)
    ensures !ok && !t.stingy ==> t.pool == {} || Obstructed(r, before)
    ensures forall b :: b in before ==> Mapped(t.View(), b)
  {
    hide Accounted, Logged, WellFormed, Flat, MappedPrefix, Holds, Only, PageTable.Valid, PageTable.Accounts, Honest;
    ghost var f, l := t.View(), t.ledger;
    ghost var done;
    ok, done := t.Map(r.virt, r.phys, r.pages, r.flags, CALLBACK_NONE);
    OnlyKept(f, l, t.View(), t.ledger, r, done, before);
    if ok { MappedHolds(f, l, t.View(), t.ledger, r.virt, FramesFrom(r.phys, r.pages), r.flags); }
    if !ok && !t.stingy && t.pool != {} { StoppedBy(f, l, t.View(), t.ledger, r, done, before); }
    forall b | b in before ensures Mapped(t.View(), b) {
      HoldsKept(f, l, t.View(), t.ledger, r.virt, FramesFrom(r.phys, r.pages), done, r.flags,
        b.virt, FramesFrom(b.phys, b.pages), b.flags);
    }
  }

  /** The regions of the higher half. */
  function HigherHalves(descs: seq<Descriptor>): set<Region> { set d | d in descs :: HigherHalf(d) }

  lemma OneMoreHalf(descs: seq<Descriptor>, i: nat)
    requires i < |descs|
    ensures HigherHalves(descs[..i + 1]) == HigherHalves(descs[..i]) + {HigherHalf(descs[i])}
  {
    assert descs[..i + 1] == descs[..i] + [descs[i]];
  }

  /** mem_page_table_init, with panic_halt as an outcome. */
  method InitPageTable(t: PageTable, frames: set<Pfn>, descs: seq<Descriptor>,
      minVaddr: Addr, maxVaddr: Addr, kernelPhys: Addr, gopVirt: Addr, gopPhys: Addr, gopSize: Addr)
    returns (r: Outcome, maxPhysicalAddress: Addr)
    modifies t
    ensures forall d :: d in descs ==> (d.physicalStart + d.numberOfPages * PAGE_SIZE) % ADDR_LIMIT <= maxPhysicalAddress
    ensures maxPhysicalAddress == 0 ||
      exists d :: d in descs && (d.physicalStart + d.numberOfPages * PAGE_SIZE) % ADDR_LIMIT == maxPhysicalAddress
    ensures r.Booted? ==> (
      var flags := NONE.(present := true, write := true);
      var identity := Region(0, 0, BytesToPages(maxPhysicalAddress), flags);
      var kernel := Region(minVaddr, kernelPhys, BytesToPages((maxVaddr - minVaddr) % ADDR_LIMIT), flags);
      var gop := Region(gopVirt, gopPhys, BytesToPages(gopSize), flags.(writeThrough := true));
      && (forall b :: b in HigherHalves(descs) + {identity, kernel, gop} ==> Mapped(t.View(), b))
      && (forall d :: d in descs ==> d.virtualStart >= HIGHER_HALF_START)
      && Only(t.View(), HigherHalves(descs) + {identity, kernel, gop}))
    ensures r.Halted? ==> 1 <= r.code <= 6
    ensures r.Halted? && !t.stingy ==> (
      var flags := NONE.(present := true, write := true);
      var identity := Region(0, 0, BytesToPages(maxPhysicalAddress), flags);
      var kernel := Region(minVaddr, kernelPhys, BytesToPages((maxVaddr - minVaddr) % ADDR_LIMIT), flags);
      var gop := Region(gopVirt, gopPhys, BytesToPages(gopSize), flags.(writeThrough := true));
      var mapped := HigherHalves(descs) + {identity};
      match r.code
      case 1 => frames == {}
      case 2 => t.pool == {} || Obstructed(identity, {})
      case 3 => exists d :: d in descs && d.virtualStart < HIGHER_HALF_START
      case 4 =>
        || t.pool == {}
        || exists i :: 0 <= i < |descs| && Obstructed(HigherHalf(descs[i]), HigherHalves(descs[..i]) + {identity})
      case 5 => t.pool == {} || Obstructed(kernel, mapped)
      case _ => t.pool == {} || Obstructed(gop, mapped + {kernel}))
    ensures (forall d :: d in descs ==> d.physicalStart % PAGE_SIZE == 0) ==> maxPhysicalAddress <= ADDR_LIMIT - PAGE_SIZE
    ensures r.Booted? && maxPhysicalAddress <= ADDR_LIMIT - PAGE_SIZE ==>
      forall d, p: Addr ::
        d in descs && d.physicalStart <= p < d.physicalStart + d.numberOfPages * PAGE_SIZE < ADDR_LIMIT ==>
          Translate(t.View(), p) == Some(p)
    ensures r.Booted? ==>
      forall v: Vpn :: t.View()[v].Present() && maxPhysicalAddress <= v * PAGE_SIZE ==>
        || (exists d :: d in descs && Offset(d.virtualStart, v) < d.numberOfPages)
        || Offset(minVaddr, v) * PAGE_SIZE < (maxVaddr - minVaddr) % ADDR_LIMIT
        || Offset(gopVirt, v) * PAGE_SIZE < gopSize
  {
    hide Mapped, Accounted, Logged, PageTable.Valid, PageTable.Accounts, PageTable.View, BytesToPages, Only, Blank,
      Obstructed, HigherHalves, Honest;
    maxPhysicalAddress := MaxPhysicalAddress(descs);
    var ok := t.Init(frames);
    if !ok { return Halted(1), maxPhysicalAddress; }
    OnlyNone(t.View());
    var identity := Region(0, 0, BytesToPages(maxPhysicalAddress), KERNEL_FLAGS);
    ok := MapRegion(t, identity, {});
    if !ok { return Halted(2), maxPhysicalAddress; }
    ghost var done: set<Region> := {} + {identity};
    assert HigherHalves(descs[..0]) == {} by { NoHalves(); }
    for i := 0 to |descs|
      invariant Ready(t) && done == HigherHalves(descs[..i]) + {identity} && Only(t.View(), done)
      invariant forall b :: b in done ==> Mapped(t.View(), b) && b.flags.present
      invariant forall d :: d in descs[..i] ==> d.virtualStart >= HIGHER_HALF_START
    {
      if descs[i].virtualStart < HIGHER_HALF_START { return Halted(3), maxPhysicalAddress; }
      ok := MapRegion(t, HigherHalf(descs[i]), done);
      if !ok { return Halted(4), maxPhysicalAddress; }
      OneMoreHalf(descs, i);
      done := done + {HigherHalf(descs[i])};
    }
    assert descs[..|descs|] == descs;
    var kernel := Region(minVaddr, kernelPhys, BytesToPages((maxVaddr - minVaddr) % ADDR_LIMIT), KERNEL_FLAGS);
    ok := MapRegion(t, kernel, done);
    if !ok { return Halted(5), maxPhysicalAddress; }
    var gop := Region(gopVirt, gopPhys, BytesToPages(gopSize), GOP_FLAGS);
    ok := MapRegion(t, gop, done + {kernel});
    if !ok { return Halted(6), maxPhysicalAddress; }
    assert done + {kernel} + {gop} == HigherHalves(descs) + {identity, kernel, gop};
    NothingAbove(t.View(), descs, identity, kernel, gop, maxPhysicalAddress, (maxVaddr - minVaddr) % ADDR_LIMIT, gopSize);
    if maxPhysicalAddress <= ADDR_LIMIT - PAGE_SIZE { AllIdentity(t.View(), descs, maxPhysicalAddress); }
    return Booted, maxPhysicalAddress;
  }

  lemma NoHalves()
    ensures HigherHalves([]) == {}
  {}

  // ---- what the booted table translates -------------------------------------------------------------

  /** The number of pages covers the bytes and no page beyond them, just when the sum in the macro does not wrap. */
  lemma PagesExact(n: Addr)
    ensures (forall i: nat :: i < BytesToPages(n) <==> i * PAGE_SIZE < n) <==> n <= ADDR_LIMIT - PAGE_SIZE
    ensures forall i: nat :: i < BytesToPages(n) ==> i * PAGE_SIZE < n
  {
    if n > ADDR_LIMIT - PAGE_SIZE { assert BytesToPages(n) == 0 && 0 * PAGE_SIZE < n; }
  }

  /** Every physical address below the highest region end is its own virtual address. */
  lemma IdentityTranslates(f: FlatMap, max: Addr, p: Addr)
    requires Mapped(f, Region(0, 0, BytesToPages(max), KERNEL_FLAGS)) && max <= ADDR_LIMIT - PAGE_SIZE && p < max
    ensures Translate(f, p) == Some(p) && f[PageOf(p)].flags == NONE.(present := true, write := true)
  {
    var i := p / PAGE_SIZE;
    assert i < BytesToPages(max);
    assert PageAt(0, i) == PageOf(p);
  }

  /** So every address of every region whose end does not wrap is. */
  lemma AllIdentity(f: FlatMap, descs: seq<Descriptor>, max: Addr)
    requires Mapped(f, Region(0, 0, BytesToPages(max), KERNEL_FLAGS)) && max <= ADDR_LIMIT - PAGE_SIZE
    requires forall d :: d in descs ==> (d.physicalStart + d.numberOfPages * PAGE_SIZE) % ADDR_LIMIT <= max
    ensures forall d, p: Addr ::
      d in descs && d.physicalStart <= p < d.physicalStart + d.numberOfPages * PAGE_SIZE < ADDR_LIMIT ==>
        Translate(f, p) == Some(p)
  {
    hide Translate, BytesToPages;
    forall d, p: Addr | d in descs && d.physicalStart <= p < d.physicalStart + d.numberOfPages * PAGE_SIZE < ADDR_LIMIT
      ensures Translate(f, p) == Some(p)
    {
      IdentityTranslates(f, max, p);
    }
  }

  /** What is mapped from the highest region end on belongs to a higher-half alias, the kernel or the framebuffer. */
  lemma NothingAbove(f: FlatMap, descs: seq<Descriptor>, identity: Region, kernel: Region, gop: Region,
      max: Addr, kernelSize: Addr, gopSize: Addr)
    requires Only(f, HigherHalves(descs) + {identity, kernel, gop})
    requires identity.virt == 0 && identity.pages == BytesToPages(max)
    requires kernel.pages == BytesToPages(kernelSize) && gop.pages == BytesToPages(gopSize)
    ensures forall v: Vpn :: f[v].Present() && max <= v * PAGE_SIZE ==>
      || (exists d :: d in descs && Offset(d.virtualStart, v) < d.numberOfPages)
      || Offset(kernel.virt, v) * PAGE_SIZE < kernelSize
      || Offset(gop.virt, v) * PAGE_SIZE < gopSize
  {
    hide BytesToPages, Offset;
    PagesExact(max);
    PagesExact(kernelSize);
    PagesExact(gopSize);
    forall v: Vpn | f[v].Present() && max <= v * PAGE_SIZE
      ensures (exists d :: d in descs && Offset(d.virtualStart, v) < d.numberOfPages)
        || Offset(kernel.virt, v) * PAGE_SIZE < kernelSize || Offset(gop.virt, v) * PAGE_SIZE < gopSize
    {
      var r :| r in HigherHalves(descs) + {identity, kernel, gop} && r.Covers(v) && f[v].flags == r.flags;
      OffsetZero(v);
      if r in HigherHalves(descs) {
        var d :| d in descs && HigherHalf(d) == r;
        assert Offset(d.virtualStart, v) < d.numberOfPages;
      }
    }
  }

  lemma LowerToHigherPage(start: Addr, p: Addr)
    requires start % PAGE_SIZE == 0 && start <= p && LowerToHigher(start) >= HIGHER_HALF_START
    ensures PageOf(LowerToHigher(p)) == PageAt(LowerToHigher(start), p / PAGE_SIZE - start / PAGE_SIZE)
    ensures LowerToHigher(p) % PAGE_SIZE == p % PAGE_SIZE
  {
    WrappedPage(p + HIGHER_HALF_START);
    PageOfWrapped((p + HIGHER_HALF_START) / PAGE_SIZE);
    assert (p + HIGHER_HALF_START) / PAGE_SIZE == p / PAGE_SIZE + HIGHER_HALF_START / PAGE_SIZE;
    assert LowerToHigher(start) == start + HIGHER_HALF_START;
    assert (start + HIGHER_HALF_START) / PAGE_SIZE == start / PAGE_SIZE + HIGHER_HALF_START / PAGE_SIZE;
  }

  /** Every address of every descriptor is reached from its higher-half alias. */
  lemma HigherHalfTranslates(f: FlatMap, d: Descriptor, p: Addr)
    requires Mapped(f, HigherHalf(d))
    requires d.virtualStart == (d.physicalStart + HIGHER_HALF_START) % ADDR_LIMIT >= HIGHER_HALF_START
    requires d.physicalStart % PAGE_SIZE == 0 && d.physicalStart <= p < d.physicalStart + d.numberOfPages * PAGE_SIZE
    ensures var alias: Addr := (p + HIGHER_HALF_START) % ADDR_LIMIT;
      Translate(f, alias) == Some(p) && f[PageOf(alias)].flags == NONE.(present := true, write := true)
  {
    LowerToHigherPage(d.physicalStart, p);
    var i := p / PAGE_SIZE - d.physicalStart / PAGE_SIZE;
    assert 0 <= i < d.numberOfPages;
    assert FramesFrom(d.physicalStart, d.numberOfPages)[i] == Field(p / PAGE_SIZE);
    assert d.physicalStart < 0x8000_0000_0000;
  }
}
