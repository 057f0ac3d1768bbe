/** First-fit search for unmapped pages (page_table_find_unmapped_region). */
module PageSearch {
  import opened Common
  import opened PageTree
  import opened PageAddr
  import opened Rounding
  import opened FrameLedger
  import opened TableState
  import opened PageTables

  const PML2_SIZE := 0x20_0000
  const PML3_SIZE := 0x4000_0000
  const PML4_SIZE := 0x80_0000_0000
  const PML4_PAGES := 0x800_0000

  // ---- runs of unmapped pages -------------------------------------------------------------------

  /** Linear page p (an address divided by the page size) is mapped. */
  ghost predicate Busy(f: FlatMap, p: nat) { p % PAGE_LIMIT in f && f[p % PAGE_LIMIT].Present() }

  ghost predicate FreeRun(f: FlatMap, a: nat, n: nat) { forall p :: a <= p < a + n ==> !Busy(f, p) }

  /** A run starting at b meets a mapped page below cur. */
  ghost predicate Blocked(f: FlatMap, b: nat, n: nat, cur: nat) {
    exists p :: b <= p < b + n && p < cur && Busy(f, p)
  }

  /** What to look for: n pages in [first, last), aligned to a byte count. Under the top-level entries that are absent,
      a run may also start, whatever the alignment, at first or where the entry's own pages start. */
  datatype Query = Query(first: nat, last: nat, n: nat, alignment: nat, absent: set<nat>)
  {
    predicate Loose(b: nat) { (b == first || b % PML4_PAGES == 0) && b / PML4_PAGES % INDEX_AMOUNT in absent }

    predicate StartOk(b: nat)
      requires alignment > 0
    {
      first <= b && (b * PAGE_SIZE % alignment == 0 || Loose(b))
    }

    ghost predicate Fits(f: FlatMap, b: nat)
      requires alignment > 0
    {
      StartOk(b) && b + n <= last && FreeRun(f, b, n)
    }

    /** r is the lowest place that fits, if there is one. */
    ghost predicate Answer(f: FlatMap, r: Option<nat>)
      requires alignment > 0
    {
      match r
      case Some(a) => Fits(f, a) && forall b: nat :: b < a ==> !Fits(f, b)
      case None => forall b: nat :: !Fits(f, b)
    }

    /** The scan stands at cur with c free pages behind it, and nothing earlier can fit. */
    ghost predicate Scanned(f: FlatMap, cur: nat, c: nat)
      requires alignment > 0
    {
      && c < n && first + c <= cur <= last
      && FreeRun(f, cur - c, c)
      && (c > 0 ==> StartOk(cur - c))
      && (forall b: nat :: b < cur - c && StartOk(b) ==> Blocked(f, b, n, cur))
    }

    lemma Found(f: FlatMap, cur: nat, c: nat, cur': nat, start: nat)
      requires alignment > 0 && Scanned(f, cur, c) && cur <= cur' <= last && FreeRun(f, cur, cur' - cur)
      requires if c > 0 then start == cur - c else cur <= start && StartOk(start)
      requires forall b: nat :: cur <= b < start && c == 0 ==> !StartOk(b)
      requires start + n <= cur'
      ensures Answer(f, Some(start))
    {
      forall b: nat | b < start ensures !Fits(f, b) {
        if StartOk(b) { assert b < cur - c; assert Blocked(f, b, n, cur); }
      }
      assert FreeRun(f, start, n);
    }

    /** Passing over free pages: an open run grows, a closed one opens at the next allowed start. */
    lemma Grow(f: FlatMap, cur: nat, c: nat, cur': nat, start: nat)
      requires alignment > 0 && Scanned(f, cur, c) && cur <= cur' <= last && FreeRun(f, cur, cur' - cur)
      requires if c > 0 then start == cur - c else cur <= start && StartOk(start)
      requires forall b: nat :: cur <= b < start && c == 0 ==> !StartOk(b)
      requires start <= cur' < start + n
      ensures Scanned(f, cur', cur' - start)
    {
      forall b: nat | b < start && StartOk(b) ensures Blocked(f, b, n, cur') {
        assert b < cur - c; assert Blocked(f, b, n, cur);
      }
    }

    /** Passing over free pages among which no run may start. */
    lemma Pass(f: FlatMap, cur: nat, cur': nat)
      requires alignment > 0 && Scanned(f, cur, 0) && cur <= cur' <= last
      requires forall b: nat :: cur <= b < cur' ==> !StartOk(b)
      ensures Scanned(f, cur', 0)
    {
      forall b: nat | b < cur' && StartOk(b) ensures Blocked(f, b, n, cur') {
        assert Blocked(f, b, n, cur);
      }
    }

    /** A mapped page closes the run: every start up to here is blocked. */
    lemma Close(f: FlatMap, cur: nat, c: nat)
      requires alignment > 0 && Scanned(f, cur, c) && cur < last && Busy(f, cur)
      ensures Scanned(f, cur + 1, 0)
    {
      forall b: nat | b < cur + 1 && StartOk(b) ensures Blocked(f, b, n, cur + 1) {
        if b < cur - c { assert Blocked(f, b, n, cur); } else { assert b <= cur < b + n; }
      }
    }

    lemma NotFound(f: FlatMap, c: nat)
      requires alignment > 0 && Scanned(f, last, c)
      ensures Answer(f, None)
    {
      forall b: nat ensures !Fits(f, b) {
        if StartOk(b) && b < last - c { assert Blocked(f, b, n, last); }
      }
    }
  }

  // ---- absent levels are free blocks --------------------------------------------------------------

  lemma LinearNode(p: nat)
    ensures LeafNode(p % PAGE_LIMIT) == L1(p / 0x800_0000 % 512, p / 0x4_0000 % 512, p / 512 % 512)
  {
    SecondField(p); ThirdField(p); TopField(p);
  }

  /** The level above page p that is missing, if any, makes the page free. */
  lemma AbsentFree(mem: Memory, root: Pfn, t: Tree, p: nat, i4: Index, i3: Index, i2: Index)
    requires WellFormed(mem, root, t.shape, t.place)
    requires i4 == p / 0x800_0000 % 512
    requires L3(i4) !in t.shape
      || (i3 == p / 0x4_0000 % 512 && L2(i4, i3) !in t.shape)
      || (i3 == p / 0x4_0000 % 512 && i2 == p / 512 % 512 && L1(i4, i3, i2) !in t.shape)
    ensures !Busy(Flat(mem, root), p)
  {
    LinearNode(p);
    var n := LeafNode(p % PAGE_LIMIT);
    assert n.Parent().Parent() == L3(i4);
    ResolveIsShape(mem, root, t.shape, t.place, n);
  }

  /** Pages up to the next multiple of size share their index at that level and above. */
  lemma SameBlock(p: nat, q: nat, size: nat)
    requires size == 512 || size == 0x4_0000 || size == 0x800_0000
    requires p <= q < (p / size + 1) * size
    ensures q / 0x800_0000 == p / 0x800_0000
    ensures size <= 0x4_0000 ==> q / 0x4_0000 == p / 0x4_0000
    ensures size == 512 ==> q / 512 == p / 512
  {}

  lemma AlignedPage(r: nat, alignment: nat)
    requires alignment > 0 && alignment % PAGE_SIZE == 0 && r % alignment == 0
    ensures r % PAGE_SIZE == 0 && r == r / PAGE_SIZE * PAGE_SIZE
  {
    var j, k := r / alignment, alignment / PAGE_SIZE;
    assert r == j * alignment;
    assert j * (k * PAGE_SIZE) == (j * k) * PAGE_SIZE;
    DivUnique(r, PAGE_SIZE, j * k, 0);
  }

  lemma BlockStartAligned(a: nat, alignment: nat)
    requires alignment > 0 && PML4_SIZE % alignment == 0 && a % PML4_SIZE == 0
    ensures a % alignment == 0
  {
    var z, w := a / PML4_SIZE, PML4_SIZE / alignment;
    assert z * (w * alignment) == (z * w) * alignment;
    DivUnique(a, alignment, z * w, 0);
  }

  // ---- the scan -------------------------------------------------------------------------------------

  function Min(a: nat, b: nat): nat { if a < b then a else b }

  /** Where the scan is: at most the end of the range, with the open run ending there. */
  ghost predicate Scanning(q: Query, f: FlatMap, cur: nat, end: nat, regionStart: nat, c: nat) {
    && q.alignment > 0 && q.last * PAGE_SIZE == end
    && q.Scanned(f, Min(cur, end) / PAGE_SIZE, c)
    && (c > 0 ==> regionStart == (Min(cur, end) / PAGE_SIZE - c) * PAGE_SIZE)
  }

  /** Outcome of a scan step: the request is met, or the scan goes on. */
  ghost predicate Advanced(q: Query, f: FlatMap, cur: nat, end: nat, regionStart: nat, c: nat) {
    if c >= q.n then q.alignment > 0 && regionStart % PAGE_SIZE == 0 && q.Answer(f, Some(regionStart / PAGE_SIZE))
    else Scanning(q, f, cur, end, regionStart, c)
  }

  /** The parameters under which the small search is exact. */
  predicate Exact(alignment: nat, end: nat) {
    alignment > 0 && alignment % PAGE_SIZE == 0 && end % PAGE_SIZE == 0 && end + alignment <= ADDR_LIMIT
  }

  /** All addresses in play are page addresses, and the pages from cur to the stop are free. */
  ghost predicate FreeStep(q: Query, f: FlatMap, cur: nat, skipTo: nat, end: nat, regionStart: nat, c: nat) {
    && q.alignment > 0 && cur < end && cur < skipTo
    && cur % PAGE_SIZE == 0 && skipTo % PAGE_SIZE == 0 && end % PAGE_SIZE == 0
    && Scanning(q, f, cur, end, regionStart, c)
    && FreeRun(f, cur / PAGE_SIZE, Min(skipTo, end) / PAGE_SIZE - cur / PAGE_SIZE)
  }

  lemma StepRun(q: Query, f: FlatMap, cur: nat, skipTo: nat, end: nat, regionStart: nat, c: nat, start: nat)
    requires FreeStep(q, f, cur, skipTo, end, regionStart, c)
    requires var p := cur / PAGE_SIZE;
      && (if c > 0 then start == p - c else p <= start && q.StartOk(start))
      && (forall b: nat :: p <= b < start && c == 0 ==> !q.StartOk(b))
      && start <= Min(skipTo, end) / PAGE_SIZE
    ensures Advanced(q, f, skipTo, end, start * PAGE_SIZE, Min(skipTo, end) / PAGE_SIZE - start)
  {
    var p, p' := cur / PAGE_SIZE, Min(skipTo, end) / PAGE_SIZE;
    assert start * PAGE_SIZE / PAGE_SIZE == start;
    if start + q.n <= p' {
      q.Found(f, p, c, p', start);
    } else {
      q.Grow(f, p, c, p', start);
    }
  }

  /** Rounding an address of the range up to the alignment. */
  lemma RoundInRange(cur: nat, alignment: nat, end: nat)
    requires Exact(alignment, end) && cur < end && cur % PAGE_SIZE == 0
    ensures var a := RoundUp(cur, alignment);
      && a % PAGE_SIZE == 0 && a / PAGE_SIZE * PAGE_SIZE == a && a % alignment == 0
      && cur <= a && (forall y :: cur <= y < a ==> y % alignment != 0)
  {
    RoundUpLeast(cur, alignment);
    AlignedPage(RoundUp(cur, alignment), alignment);
  }

  /** No run may start unaligned from cur up to the stop. */
  ghost predicate Firm(q: Query, cur: nat, stop: nat) {
    forall b: nat :: cur / PAGE_SIZE <= b && b * PAGE_SIZE < stop ==> !q.Loose(b)
  }

  lemma StepAligned(q: Query, f: FlatMap, cur: nat, skipTo: nat, end: nat, regionStart: nat)
    requires FreeStep(q, f, cur, skipTo, end, regionStart, 0) && Exact(q.alignment, end)
    requires Firm(q, cur, skipTo)
    ensures var a := RoundUp(cur, q.alignment);
      if a < skipTo && a < end then Advanced(q, f, skipTo, end, a, (Min(skipTo, end) - a) / PAGE_SIZE)
      else Scanning(q, f, skipTo, end, regionStart, 0)
  {
    hide RoundUp, FreeRun, Advanced, Query.Answer, Query.StartOk, Firm;
    var a := RoundUp(cur, q.alignment);
    RoundInRange(cur, q.alignment, end);
    NoneBefore(q, cur, skipTo, a);
    if a < skipTo && a < end {
      Opens(q, f, cur, skipTo, end, regionStart, a);
    } else {
      q.Pass(f, cur / PAGE_SIZE, Min(skipTo, end) / PAGE_SIZE);
    }
  }

  /** A run opens at the aligned address. */
  lemma Opens(q: Query, f: FlatMap, cur: nat, skipTo: nat, end: nat, regionStart: nat, a: nat)
    requires FreeStep(q, f, cur, skipTo, end, regionStart, 0) && cur <= a < skipTo && a < end
    requires a % q.alignment == 0 && a % PAGE_SIZE == 0
    requires forall b: nat :: cur / PAGE_SIZE <= b < a / PAGE_SIZE && b * PAGE_SIZE < skipTo ==> !q.StartOk(b)
    ensures Advanced(q, f, skipTo, end, a, (Min(skipTo, end) - a) / PAGE_SIZE)
  {
    hide FreeStep, Advanced, Query.StartOk;
    StepBounds(q, f, cur, skipTo, end, regionStart);
    AlignedOk(q, cur, a);
    PageDiff(Min(skipTo, end), a);
    PageDiff(a, cur);
    forall b: nat | cur / PAGE_SIZE <= b < a / PAGE_SIZE ensures !q.StartOk(b) { assert b * PAGE_SIZE < a; }
    StepRun(q, f, cur, skipTo, end, regionStart, 0, a / PAGE_SIZE);
  }

  lemma StepBounds(q: Query, f: FlatMap, cur: nat, skipTo: nat, end: nat, regionStart: nat)
    requires FreeStep(q, f, cur, skipTo, end, regionStart, 0)
    ensures q.alignment > 0 && q.first * PAGE_SIZE <= cur && cur % PAGE_SIZE == 0 && Min(skipTo, end) % PAGE_SIZE == 0
  {}

  lemma PageDiff(x: nat, y: nat)
    requires x % PAGE_SIZE == 0 && y % PAGE_SIZE == 0 && y <= x
    ensures (x - y) / PAGE_SIZE == x / PAGE_SIZE - y / PAGE_SIZE >= 0 && y / PAGE_SIZE * PAGE_SIZE == y
  {}

  lemma NoneBefore(q: Query, cur: nat, skipTo: nat, a: nat)
    requires q.alignment > 0 && cur % PAGE_SIZE == 0 && a % PAGE_SIZE == 0 && Firm(q, cur, skipTo)
    requires forall y :: cur <= y < a ==> y % q.alignment != 0
    ensures forall b: nat :: cur / PAGE_SIZE <= b < a / PAGE_SIZE && b * PAGE_SIZE < skipTo ==> !q.StartOk(b)
  {
    forall b: nat | cur / PAGE_SIZE <= b < a / PAGE_SIZE && b * PAGE_SIZE < skipTo ensures !q.StartOk(b) {
      assert cur <= b * PAGE_SIZE < a;
    }
  }

  lemma AlignedOk(q: Query, cur: nat, a: nat)
    requires q.alignment > 0 && q.first * PAGE_SIZE <= cur <= a && a % q.alignment == 0 && a % PAGE_SIZE == 0
    ensures q.StartOk(a / PAGE_SIZE)
  {}

  /** An absent PML3 or PML2 entry: skip to its end, opening a run at the next aligned address if none is open. */
  method PassAligned(cur: nat, skipTo: nat, end: nat, alignment: nat, regionStart: nat, c: nat, ghost q: Query,
      ghost f: FlatMap)
    returns (regionStart': nat, c': nat)
    requires cur < end && cur < skipTo && alignment > 0
    ensures Exact(alignment, end) && q.alignment == alignment && Firm(q, cur, skipTo)
      && FreeStep(q, f, cur, skipTo, end, regionStart, c)
      ==> Advanced(q, f, skipTo, end, regionStart', c')
  {
    hide FreeStep, Advanced, Scanning, Exact, RoundUp;
    ghost var exact := Exact(alignment, end) && q.alignment == alignment && Firm(q, cur, skipTo)
      && FreeStep(q, f, cur, skipTo, end, regionStart, c);
    regionStart', c' := regionStart, c;
    if c == 0 {
      var alignedAddr := RoundUp(cur, alignment);
      if exact { StepAligned(q, f, cur, skipTo, end, regionStart); }
      if alignedAddr < skipTo && alignedAddr < end {
        regionStart' := alignedAddr;
        c' := (Min(skipTo, end) - alignedAddr) / PAGE_SIZE;
      } else if exact {
        NotYet(q, f, skipTo, end, regionStart, c);
      }
    } else {
      if exact { StepOpen(q, f, cur, skipTo, end, regionStart, c); }
      c' := c + (Min(skipTo, end) - cur) / PAGE_SIZE;
    }
  }

  lemma NotYet(q: Query, f: FlatMap, cur: nat, end: nat, regionStart: nat, c: nat)
    requires Scanning(q, f, cur, end, regionStart, c)
    ensures Advanced(q, f, cur, end, regionStart, c)
  {}

  lemma StepOpen(q: Query, f: FlatMap, cur: nat, skipTo: nat, end: nat, regionStart: nat, c: nat)
    requires FreeStep(q, f, cur, skipTo, end, regionStart, c) && c > 0
    ensures Advanced(q, f, skipTo, end, regionStart, c + (Min(skipTo, end) - cur) / PAGE_SIZE)
  {
    StepRun(q, f, cur, skipTo, end, regionStart, c, cur / PAGE_SIZE - c);
  }

  /** An absent PML4 entry: skip to its end; a run opens right at cur, whatever the alignment. */
  method PassRoot(cur: nat, skipTo: nat, end: nat, regionStart: nat, c: nat, ghost q: Query, ghost f: FlatMap)
    returns (regionStart': nat, c': nat)
    requires cur < end && cur < skipTo
    ensures FreeStep(q, f, cur, skipTo, end, regionStart, c) && (c == 0 ==> q.StartOk(cur / PAGE_SIZE))
      ==> Advanced(q, f, skipTo, end, regionStart', c')
  {
    hide Advanced;
    ghost var exact := FreeStep(q, f, cur, skipTo, end, regionStart, c) && (c == 0 ==> q.StartOk(cur / PAGE_SIZE));
    regionStart' := if c == 0 then cur else regionStart;
    c' := c + (Min(skipTo, end) - cur) / PAGE_SIZE;
    if exact { StepRun(q, f, cur, skipTo, end, regionStart, c, cur / PAGE_SIZE - c); }
  }

  /** One absent leaf entry. */
  method PassPage(cur: nat, end: nat, alignment: nat, regionStart: nat, c: nat, ghost q: Query, ghost f: FlatMap)
    returns (regionStart': nat, c': nat)
    requires cur < end && alignment > 0
    ensures Exact(alignment, end) && q.alignment == alignment && Firm(q, cur, cur + PAGE_SIZE)
      && FreeStep(q, f, cur, cur + PAGE_SIZE, end, regionStart, c)
      ==> Advanced(q, f, cur + PAGE_SIZE, end, regionStart', c')
  {
    hide Advanced, FreeStep, Exact, RoundUp, Scanning;
    ghost var exact := Exact(alignment, end) && q.alignment == alignment && Firm(q, cur, cur + PAGE_SIZE)
      && FreeStep(q, f, cur, cur + PAGE_SIZE, end, regionStart, c);
    regionStart', c' := regionStart, c;
    if c == 0 {
      if exact {
        StepAligned(q, f, cur, cur + PAGE_SIZE, end, regionStart);
        FreePage(q, f, cur, end, regionStart, c);
        StepPage(cur, alignment, end);
      }
      var alignedAddr := RoundUp(cur, alignment);
      if alignedAddr == cur {
        regionStart' := cur;
        c' := c + 1;
      } else if exact {
        NotYet(q, f, cur + PAGE_SIZE, end, regionStart, c);
      }
    } else {
      if exact { StepOpen(q, f, cur, cur + PAGE_SIZE, end, regionStart, c); OnePage(q, f, cur, end, regionStart, c); }
      c' := c + 1;
    }
  }

  lemma FreePage(q: Query, f: FlatMap, cur: nat, end: nat, regionStart: nat, c: nat)
    requires FreeStep(q, f, cur, cur + PAGE_SIZE, end, regionStart, c)
    ensures cur % PAGE_SIZE == 0
  {}

  lemma OnePage(q: Query, f: FlatMap, cur: nat, end: nat, regionStart: nat, c: nat)
    requires FreeStep(q, f, cur, cur + PAGE_SIZE, end, regionStart, c)
    ensures (Min(cur + PAGE_SIZE, end) - cur) / PAGE_SIZE == 1
  {}

  /** Rounding up within a page finds either the page itself or nothing. */
  lemma StepPage(cur: nat, alignment: nat, end: nat)
    requires Exact(alignment, end) && cur < end && cur % PAGE_SIZE == 0
    ensures var a := RoundUp(cur, alignment);
      && (a == cur ==> (Min(cur + PAGE_SIZE, end) - a) / PAGE_SIZE == 1)
      && (a != cur ==> a >= cur + PAGE_SIZE)
  {
    hide RoundUp;
    RoundInRange(cur, alignment, end);
  }

  /** A mapped page ends the run. */
  lemma StepBusy(q: Query, f: FlatMap, cur: nat, end: nat, regionStart: nat, c: nat)
    requires q.alignment > 0 && cur < end && cur % PAGE_SIZE == 0 && end % PAGE_SIZE == 0
    requires Scanning(q, f, cur, end, regionStart, c) && Busy(f, cur / PAGE_SIZE)
    ensures Scanning(q, f, cur + PAGE_SIZE, end, regionStart, 0)
  {
    q.Close(f, cur / PAGE_SIZE, c);
  }

  lemma LeafAtIndex(mem: Memory, root: Pfn, t: Tree, p: nat, n: Node)
    requires WellFormed(mem, root, t.shape, t.place) && n in t.shape && n == LeafNode(p % PAGE_LIMIT)
    ensures Busy(Flat(mem, root), p) <==> mem[t.shape[n]][p % INDEX_AMOUNT].Present()
  {
    ResolveIsShape(mem, root, t.shape, t.place, n);
    LowField(p);
  }

  /** Consecutive pages of one lowest-level table. */
  lemma SameTable(p: nat, i: Index, j: Index)
    requires p % 512 == 0
    ensures LeafNode((p + i) % PAGE_LIMIT) == LeafNode((p + j) % PAGE_LIMIT) && (p + i) % 512 == i
  {
    LinearNode(p + i);
    LinearNode(p + j);
    SameBlock(p, p + i, 512);
    SameBlock(p, p + j, 512);
  }

  /** The scan stands at cur, exactly, and no run may start unaligned before the stop. */
  ghost predicate ScanningInside(q: Query, f: FlatMap, cur: nat, stop: nat, end: nat, regionStart: nat, c: nat,
      amount: nat, alignment: nat)
  {
    Exact(alignment, end) && q.alignment == alignment && q.n == amount && cur % PAGE_SIZE == 0
    && Scanning(q, f, cur, end, regionStart, c) && Firm(q, cur, stop)
  }

  /** One round of the loop over a lowest-level table. */
  method ScanEntry(present: bool, cur: nat, end: nat, amount: nat, alignment: nat, regionStart: nat, c: nat,
      ghost q: Query, ghost f: FlatMap, ghost stop: nat)
    returns (regionStart': nat, c': nat)
    requires cur < end && cur + PAGE_SIZE <= stop && alignment > 0 && (present <==> Busy(f, cur / PAGE_SIZE))
    ensures ScanningInside(q, f, cur, stop, end, regionStart, c, amount, alignment) ==>
      && Advanced(q, f, cur + PAGE_SIZE, end, regionStart', c')
      && (present || c' < amount ==> ScanningInside(q, f, cur + PAGE_SIZE, stop, end, regionStart', c', amount, alignment))
  {
    hide ScanningInside, Advanced, Busy, Exact, Firm, FreeStep;
    ghost var inside := ScanningInside(q, f, cur, stop, end, regionStart, c, amount, alignment);
    if present {
      if inside {
        InsideBusy(q, f, cur, stop, end, regionStart, c, amount, alignment);
      }
      return regionStart, 0;
    }
    if inside { InsideFree(q, f, cur, stop, end, regionStart, c, amount, alignment); }
    regionStart', c' := PassPage(cur, end, alignment, regionStart, c, q, f);
    if inside { InsideNext(q, f, cur, stop, end, regionStart, c, amount, alignment, regionStart', c'); }
  }

  lemma InsideBusy(q: Query, f: FlatMap, cur: nat, stop: nat, end: nat, regionStart: nat, c: nat, amount: nat,
      alignment: nat)
    requires ScanningInside(q, f, cur, stop, end, regionStart, c, amount, alignment) && cur < end
    requires Busy(f, cur / PAGE_SIZE)
    ensures Advanced(q, f, cur + PAGE_SIZE, end, regionStart, 0)
    ensures ScanningInside(q, f, cur + PAGE_SIZE, stop, end, regionStart, 0, amount, alignment)
  {
    StepBusy(q, f, cur, end, regionStart, c);
    FirmOn(q, cur, stop);
    NotYet(q, f, cur + PAGE_SIZE, end, regionStart, 0);
  }

  lemma FirmOn(q: Query, cur: nat, stop: nat)
    requires Firm(q, cur, stop)
    ensures Firm(q, cur + PAGE_SIZE, stop) && (cur + PAGE_SIZE <= stop ==> Firm(q, cur, cur + PAGE_SIZE))
  {}

  lemma InsideFree(q: Query, f: FlatMap, cur: nat, stop: nat, end: nat, regionStart: nat, c: nat, amount: nat,
      alignment: nat)
    requires ScanningInside(q, f, cur, stop, end, regionStart, c, amount, alignment) && cur < end
    requires !Busy(f, cur / PAGE_SIZE)
    requires cur + PAGE_SIZE <= stop
    ensures Exact(alignment, end) && q.alignment == alignment && Firm(q, cur, cur + PAGE_SIZE)
    ensures FreeStep(q, f, cur, cur + PAGE_SIZE, end, regionStart, c)
  {
    hide Scanning, Busy;
    FirmOn(q, cur, stop);
  }

  lemma InsideNext(q: Query, f: FlatMap, cur: nat, stop: nat, end: nat, regionStart: nat, c: nat, amount: nat,
      alignment: nat, regionStart': nat, c': nat)
    requires ScanningInside(q, f, cur, stop, end, regionStart, c, amount, alignment)
    requires Advanced(q, f, cur + PAGE_SIZE, end, regionStart', c')
    ensures c' < amount ==> ScanningInside(q, f, cur + PAGE_SIZE, stop, end, regionStart', c', amount, alignment)
  {
    hide Scanning, Query.Answer;
    FirmOn(q, cur, stop);
  }

  lemma AdvancedFound(q: Query, f: FlatMap, cur: nat, stop: nat, end: nat, regionStart: nat, c: nat,
      cur': nat, regionStart': nat, c': nat, amount: nat, alignment: nat)
    requires ScanningInside(q, f, cur, stop, end, regionStart, c, amount, alignment)
    requires Advanced(q, f, cur', end, regionStart', c') && c' >= amount
    ensures regionStart' % PAGE_SIZE == 0 && q.Answer(f, Some(regionStart' / PAGE_SIZE))
  {}

  /** Entry i of the table for page base. */
  lemma TableEntry(t: PageTable, n: Node, pml1: Pfn, base: nat, idx: Index, i: Index)
    requires t.Valid() && Lookup(t.tree.shape, n) == Some(pml1) && base % 512 == 0
    requires LeafNode((base + idx) % PAGE_LIMIT) == n
    ensures pml1 in t.mem && (t.mem[pml1][i].Present() <==> Busy(t.View(), base + i))
  {
    hide Flat, LeafNode, Busy;
    SameTable(base, i, idx);
    LeafAtIndex(t.mem, t.pml4, t.tree, base + i, n);
  }

  lemma TableStart(cur0: nat, idx: Index)
    requires cur0 / PAGE_SIZE % 512 == idx
    ensures cur0 / PAGE_SIZE >= idx && (cur0 / PAGE_SIZE - idx) % 512 == 0
  {}

  lemma PageStep(cur0: nat, idx: nat, i: nat)
    requires cur0 % PAGE_SIZE == 0 && idx <= i && cur0 / PAGE_SIZE >= idx
    ensures var cur := cur0 + (i - idx) * PAGE_SIZE; cur / PAGE_SIZE == cur0 / PAGE_SIZE - idx + i && cur % PAGE_SIZE == 0
  {
    DivUnique(cur0 + (i - idx) * PAGE_SIZE, PAGE_SIZE, cur0 / PAGE_SIZE - idx + i, 0);
  }

  /** The inner loop over one lowest-level table. */
  method ScanTable(t: PageTable, pml1: Pfn, idx: Index, cur0: nat, end: nat, amount: nat, alignment: nat,
      regionStart0: nat, c0: nat, ghost q: Query, ghost n: Node)
    returns (found: bool, cur: nat, regionStart: nat, c: nat)
    requires t.Valid() && n.L1? && Lookup(t.tree.shape, n) == Some(pml1) && cur0 < end && alignment > 0
    requires cur0 % PAGE_SIZE == 0 && cur0 / PAGE_SIZE % 512 == idx && LeafNode(cur0 / PAGE_SIZE % PAGE_LIMIT) == n
    ensures found || (cur0 < cur && (cur >= end || cur == cur0 + (512 - idx) * PAGE_SIZE))
    ensures cur % PAGE_SIZE == 0 && cur <= cur0 + (512 - idx) * PAGE_SIZE
    ensures ScanningInside(q, t.View(), cur0, cur0 + (512 - idx) * PAGE_SIZE, end, regionStart0, c0, amount, alignment) ==>
      if found then regionStart % PAGE_SIZE == 0 && q.Answer(t.View(), Some(regionStart / PAGE_SIZE))
      else ScanningInside(q, t.View(), cur, cur0 + (512 - idx) * PAGE_SIZE, end, regionStart, c, amount, alignment)
  {
    hide PageTable.Valid, PageTable.View, LeafNode, Advanced, ScanningInside, Busy, Query.Answer;
    TableStart(cur0, idx);
    ghost var base, stop := cur0 / PAGE_SIZE - idx, cur0 + (512 - idx) * PAGE_SIZE;
    ghost var exact := ScanningInside(q, t.View(), cur0, stop, end, regionStart0, c0, amount, alignment);
    cur, regionStart, c := cur0, regionStart0, c0;
    var i: nat := idx;
    while i < INDEX_AMOUNT && cur < end
      invariant idx <= i <= INDEX_AMOUNT && cur == cur0 + (i - idx) * PAGE_SIZE
      invariant exact ==> ScanningInside(q, t.View(), cur, stop, end, regionStart, c, amount, alignment)
    {
      TableEntry(t, n, pml1, base, idx, i);
      PageStep(cur0, idx, i);
      var present := t.mem[pml1][i].Present();
      ghost var cur1, region1, c1 := cur, regionStart, c;
      regionStart, c := ScanEntry(present, cur, end, amount, alignment, regionStart, c, q, t.View(), stop);
      if !present && c >= amount {
        if exact {
          AdvancedFound(q, t.View(), cur1, stop, end, region1, c1, cur + PAGE_SIZE, regionStart, c, amount, alignment);
        }
        return true, cur, regionStart, c;
      }
      i := i + 1;
      cur := cur + PAGE_SIZE;
    }
    PageStep(cur0, idx, i);
    found := false;
  }

  // ---- the search -----------------------------------------------------------------------------------

  /** PML_INDEX_TO_ADDR for the top level: indexes from 256 on denote the higher half. */
  function RootIndexToAddr(index: nat): nat
    requires index <= 512
  {
    if index < 256 then index * PML4_SIZE else HIGHER_HALF_START + index % 256 * PML4_SIZE
  }

  /** The search range lies in one half, below the topmost PML4 entry. */
  predicate InHalf(start: nat, end: nat) {
    end <= 256 * PML4_SIZE || (HIGHER_HALF_START <= start && end <= HIGHER_HALF_START + 255 * PML4_SIZE)
  }

  /** The end of a PML4 entry's region, except that the last lower-half entry points beyond the gap. */
  lemma RootSkip(cur: Addr, start: nat, end: nat)
    requires InHalf(start, end) && start <= cur < end
    ensures var skipTo := RootIndexToAddr(AddrToIndex(cur, 4) + 1);
      skipTo % PAGE_SIZE == 0 && cur < skipTo && Min(skipTo, end) == Min((cur / PML4_SIZE + 1) * PML4_SIZE, end)
      && (skipTo < end ==> skipTo % PML4_SIZE == 0)
  {
    var z := cur / PML4_SIZE;
    RootBounds(cur, z);
    if cur < 256 * PML4_SIZE {
      DivUnique(z, 512, 0, z);
      if z < 255 { RootEnd(z + 1); }
    } else {
      DivUnique(z, 512, 0xFFFF, z - 0x1FF_FE00);
      DivUnique(z - 0x1FF_FE00 + 1, 256, 1, z - 0x1FF_FF00 + 1);
      RootEnd(z + 1);
    }
  }

  lemma RootBounds(cur: Addr, z: nat)
    requires z == cur / PML4_SIZE
    ensures z * PML4_SIZE <= cur < (z + 1) * PML4_SIZE
    ensures cur < 256 * PML4_SIZE ==> z < 256
    ensures HIGHER_HALF_START <= cur ==> 0x1FF_FF00 <= z
    ensures cur < HIGHER_HALF_START + 255 * PML4_SIZE ==> z < 0x1FF_FFFF
  {}

  lemma RootEnd(z: nat)
    ensures z * PML4_SIZE % PML4_SIZE == 0 && z * PML4_SIZE % PAGE_SIZE == 0
  {
    DivUnique(z * PML4_SIZE, PML4_SIZE, z, 0);
    DivUnique(z * PML4_SIZE, PAGE_SIZE, z * PML4_PAGES, 0);
  }

  lemma BlockSkip(cur: nat, size: nat)
    requires (size == PML2_SIZE || size == PML3_SIZE || size == PML4_SIZE) && cur + size < ADDR_LIMIT
    ensures var skipTo := RoundUp(cur + 1, size);
      skipTo == (cur / size + 1) * size && skipTo % PAGE_SIZE == 0 && cur < skipTo
  {
    hide RoundUp;
    NextBlock(cur, size);
    BlockEnd(cur / size + 1, size, if size == PML2_SIZE then 512 else if size == PML3_SIZE then 0x4_0000 else PML4_PAGES);
  }

  lemma BlockEnd(z: nat, size: nat, w: nat)
    requires size == w * PAGE_SIZE
    ensures z * size % PAGE_SIZE == 0
  {
    Times(z, w);
    DivUnique(z * size, PAGE_SIZE, z * w, 0);
  }

  lemma Times(z: nat, w: nat)
    ensures z * (w * PAGE_SIZE) == (z * w) * PAGE_SIZE
  {}

  /** From cur to the end of the region of the first missing entry on its path, every page is free. */
  lemma FreeBlock(mem: Memory, root: Pfn, t: Tree, cur: Addr, stop: nat, size: nat)
    requires WellFormed(mem, root, t.shape, t.place) && cur % PAGE_SIZE == 0 && stop % PAGE_SIZE == 0 && cur <= stop
    requires var i4, i3, i2 := AddrToIndex(cur, 4), AddrToIndex(cur, 3), AddrToIndex(cur, 2);
      (size == PML4_SIZE && L3(i4) !in t.shape) || (size == PML3_SIZE && L2(i4, i3) !in t.shape)
      || (size == PML2_SIZE && L1(i4, i3, i2) !in t.shape)
    requires stop <= (cur / size + 1) * size
    ensures FreeRun(Flat(mem, root), cur / PAGE_SIZE, stop / PAGE_SIZE - cur / PAGE_SIZE)
  {
    hide Flat;
    var p := cur / PAGE_SIZE;
    IndexOfPage(cur);
    forall x | p <= x < stop / PAGE_SIZE ensures !Busy(Flat(mem, root), x) {
      BlockPages(cur, stop, size, x);
      SameBlock(p, x, size / PAGE_SIZE);
      AbsentFree(mem, root, t, x, AddrToIndex(cur, 4), AddrToIndex(cur, 3), AddrToIndex(cur, 2));
    }
  }

  lemma IndexOfPage(cur: Addr)
    ensures var p := cur / PAGE_SIZE;
      && AddrToIndex(cur, 4) == p / 0x800_0000 % 512 && AddrToIndex(cur, 3) == p / 0x4_0000 % 512
      && AddrToIndex(cur, 2) == p / 512 % 512 && AddrToIndex(cur, 1) == p % 512
  {}

  lemma BlockPages(cur: nat, stop: nat, size: nat, x: nat)
    requires size == PML4_SIZE || size == PML3_SIZE || size == PML2_SIZE
    requires cur % PAGE_SIZE == 0 && stop <= (cur / size + 1) * size && cur / PAGE_SIZE <= x < stop / PAGE_SIZE
    ensures x < (cur / PAGE_SIZE / (size / PAGE_SIZE) + 1) * (size / PAGE_SIZE)
  {
    if size == PML4_SIZE {
      assert cur / PAGE_SIZE / 0x800_0000 == cur / PML4_SIZE;
    } else if size == PML3_SIZE {
      assert cur / PAGE_SIZE / 0x4_0000 == cur / PML3_SIZE;
    } else {
      assert cur / PAGE_SIZE / 512 == cur / PML2_SIZE;
    }
  }

  /** The entry for an index, read as the search does. */
  method Peek(t: PageTable, ghost n: Node, pml: Pfn, index: Index) returns (r: Option<Pfn>)
    requires t.Valid() && !n.L1? && Lookup(t.tree.shape, n) == Some(pml)
    ensures r == Lookup(t.tree.shape, n.Child(index))
  {
    assert Linked(t.mem, t.tree.shape, n);
    var entry := t.mem[pml][index];
    r := if entry.Present() then Some(entry.pfn) else None;
  }

  /** At a round's start under an absent PML4 entry the scan stands at the range's start or at a region's start. */
  ghost predicate RootEntered(t: PageTable, start: nat, cur: Addr, end: nat)
    reads t
  {
    cur < end ==> cur == start || cur % PML4_SIZE == 0 || L3(AddrToIndex(cur, 4)) in t.tree.shape
  }

  /** The top-level entries that are absent. */
  ghost function Absent(t: PageTable): set<nat>
    reads t
  {
    set i: nat | i < INDEX_AMOUNT && L3(i) !in t.tree.shape
  }

  /** The query the search answers. */
  ghost predicate Asked(t: PageTable, q: Query, start: Addr, end: nat, amount: nat, alignment: nat)
    reads t
  {
    Exact(alignment, end) && q.alignment == alignment && q.n == amount && start == q.first * PAGE_SIZE
    && q.absent == Absent(t)
  }

  lemma StillEntered(t: PageTable, start: nat, cur: Addr, cur': Addr, end: nat)
    requires L3(AddrToIndex(cur, 4)) in t.tree.shape && cur < cur' <= (cur / PML4_SIZE + 1) * PML4_SIZE
    ensures RootEntered(t, start, cur', end)
  {
    if cur' < (cur / PML4_SIZE + 1) * PML4_SIZE { assert cur' / PML4_SIZE == cur / PML4_SIZE; }
  }

  /** A round under an absent PML4 entry. */
  method RootRound(t: PageTable, start: Addr, cur: Addr, end: Addr, amount: nat, alignment: nat,
      regionStart: nat, c: nat, ghost q: Query)
    returns (skipTo: Addr, regionStart': nat, c': nat)
    requires t.Valid() && InHalf(start, end) && start <= cur < end && cur % PAGE_SIZE == 0 && alignment > 0
    requires RootEntered(t, start, cur, end) && L3(AddrToIndex(cur, 4)) !in t.tree.shape
    ensures cur < skipTo && skipTo % PAGE_SIZE == 0 && RootEntered(t, start, skipTo, end)
    ensures Asked(t, q, start, end, amount, alignment) && Scanning(q, t.View(), cur, end, regionStart, c)
      ==> Advanced(q, t.View(), skipTo, end, regionStart', c')
  {
    hide Flat, Advanced, Scanning, FreeRun, WellFormed, AddrToIndex;
    RootSkip(cur, start, end);
    skipTo := RootIndexToAddr(AddrToIndex(cur, 4) + 1);
    if Asked(t, q, start, end, amount, alignment) && Scanning(q, t.View(), cur, end, regionStart, c) {
      FreeBlock(t.mem, t.pml4, t.tree, cur, Min(skipTo, end), PML4_SIZE);
      RootStartOk(t, q, start, cur, end, amount, alignment);
    }
    regionStart', c' := PassRoot(cur, skipTo, end, regionStart, c, q, t.View());
  }

  lemma RootStartOk(t: PageTable, q: Query, start: Addr, cur: Addr, end: nat, amount: nat, alignment: nat)
    requires Asked(t, q, start, end, amount, alignment) && RootEntered(t, start, cur, end)
    requires start <= cur < end && cur % PAGE_SIZE == 0 && L3(AddrToIndex(cur, 4)) !in t.tree.shape
    ensures q.StartOk(cur / PAGE_SIZE)
  {
    hide AddrToIndex;
    IndexOfPage(cur);
    if cur != start { BlockStart(cur); }
  }

  lemma BlockStart(cur: nat)
    requires cur % PML4_SIZE == 0
    ensures cur / PAGE_SIZE % PML4_PAGES == 0
  {
    assert cur == cur / PML4_SIZE * PML4_PAGES * PAGE_SIZE;
  }

  /** Under a present top-level entry no run starts unaligned. */
  lemma PresentFirm(t: PageTable, q: Query, cur: Addr, stop: nat)
    requires q.absent == Absent(t) && L3(AddrToIndex(cur, 4)) in t.tree.shape
    requires cur % PAGE_SIZE == 0 && stop <= (cur / PML4_SIZE + 1) * PML4_SIZE
    ensures Firm(q, cur, stop)
  {
    hide AddrToIndex;
    IndexOfPage(cur);
    forall b: nat | cur / PAGE_SIZE <= b && b * PAGE_SIZE < stop ensures !q.Loose(b) {
      SamePml4(cur, b);
    }
  }

  lemma SamePml4(cur: nat, b: nat)
    requires cur % PAGE_SIZE == 0 && cur / PAGE_SIZE <= b && b * PAGE_SIZE < (cur / PML4_SIZE + 1) * PML4_SIZE
    ensures b / PML4_PAGES == cur / PAGE_SIZE / PML4_PAGES
  {}

  /** A round under an absent PML3 or PML2 entry. */
  method BlockRound(t: PageTable, start: Addr, cur: Addr, end: Addr, size: nat, amount: nat, alignment: nat,
      regionStart: nat, c: nat, ghost q: Query)
    returns (skipTo: Addr, regionStart': nat, c': nat)
    requires t.Valid() && InHalf(start, end) && start <= cur < end && cur % PAGE_SIZE == 0 && alignment > 0
    requires var i4, i3, i2 := AddrToIndex(cur, 4), AddrToIndex(cur, 3), AddrToIndex(cur, 2);
      L3(i4) in t.tree.shape && ((size == PML3_SIZE && L2(i4, i3) !in t.tree.shape)
      || (size == PML2_SIZE && L1(i4, i3, i2) !in t.tree.shape))
    ensures cur < skipTo && skipTo % PAGE_SIZE == 0 && RootEntered(t, start, skipTo, end)
    ensures Asked(t, q, start, end, amount, alignment) && Scanning(q, t.View(), cur, end, regionStart, c)
      ==> Advanced(q, t.View(), skipTo, end, regionStart', c')
  {
    hide Flat, Advanced, Scanning, FreeRun, WellFormed, AddrToIndex, RoundUp;
    BlockSkip(cur, size);
    BlockWithin(cur, size);
    var next := RoundUp(cur + 1, size);
    skipTo := next;
    StillEntered(t, start, cur, skipTo, end);
    if Asked(t, q, start, end, amount, alignment) && Scanning(q, t.View(), cur, end, regionStart, c) {
      FreeBlock(t.mem, t.pml4, t.tree, cur, Min(skipTo, end), size);
      PresentFirm(t, q, cur, skipTo);
    }
    regionStart', c' := PassAligned(cur, skipTo, end, alignment, regionStart, c, q, t.View());
  }

  lemma BlockWithin(cur: nat, size: nat)
    requires size == PML2_SIZE || size == PML3_SIZE
    ensures (cur / size + 1) * size <= (cur / PML4_SIZE + 1) * PML4_SIZE
  {
    if size == PML2_SIZE {
      assert cur / PML4_SIZE == cur / PML2_SIZE / 0x4_0000;
    } else {
      assert cur / PML4_SIZE == cur / PML3_SIZE / 512;
    }
  }

  lemma TableWithin(cur: nat)
    requires cur % PAGE_SIZE == 0
    ensures cur + (512 - cur / PAGE_SIZE % 512) * PAGE_SIZE <= (cur / PML4_SIZE + 1) * PML4_SIZE
  {
    BlockWithin(cur, PML2_SIZE);
    assert cur / PML2_SIZE == cur / PAGE_SIZE / 512;
  }

  /** A round through a present lowest-level table. */
  method TableRound(t: PageTable, start: Addr, cur0: Addr, end: Addr, pml1: Pfn, amount: nat, alignment: nat,
      regionStart0: nat, c0: nat, ghost q: Query)
    returns (found: bool, cur: Addr, regionStart: nat, c: nat)
    requires t.Valid() && InHalf(start, end) && start <= cur0 < end && cur0 % PAGE_SIZE == 0 && alignment > 0
    requires var i4, i3, i2 := AddrToIndex(cur0, 4), AddrToIndex(cur0, 3), AddrToIndex(cur0, 2);
      L3(i4) in t.tree.shape && Lookup(t.tree.shape, L1(i4, i3, i2)) == Some(pml1)
    ensures found || (cur0 < cur && cur % PAGE_SIZE == 0 && RootEntered(t, start, cur, end))
    ensures Asked(t, q, start, end, amount, alignment) && Scanning(q, t.View(), cur0, end, regionStart0, c0)
      ==> if found then regionStart % PAGE_SIZE == 0 && q.Answer(t.View(), Some(regionStart / PAGE_SIZE))
          else Scanning(q, t.View(), cur, end, regionStart, c)
  {
    hide Flat, Scanning, WellFormed, AddrToIndex, LeafNode;
    PathOf(cur0);
    IndexOfPage(cur0);
    TableWithin(cur0);
    ghost var n := L1(AddrToIndex(cur0, 4), AddrToIndex(cur0, 3), AddrToIndex(cur0, 2));
    if Asked(t, q, start, end, amount, alignment) {
      PresentFirm(t, q, cur0, cur0 + (512 - AddrToIndex(cur0, 1)) * PAGE_SIZE);
    }
    var cur1;
    found, cur1, regionStart, c :=
      ScanTable(t, pml1, AddrToIndex(cur0, 1), cur0, end, amount, alignment, regionStart0, c0, q, n);
    cur := cur1;
    if !found && cur < end { StillEntered(t, start, cur0, cur, end); }
  }

  /** The page-by-page search: requests below 512 pages. */
  method SearchPages(t: PageTable, start: Addr, end: Addr, amount: nat, alignment: nat, ghost q: Query)
    returns (r: Option<nat>)
    requires t.Valid() && InHalf(start, end) && start % PAGE_SIZE == 0 && alignment > 0
    ensures Asked(t, q, start, end, amount, alignment) && amount > 0 && end == q.last * PAGE_SIZE && start <= end ==>
      match r
      case Some(a) => a % PAGE_SIZE == 0 && q.Answer(t.View(), Some(a / PAGE_SIZE))
      case None => q.Answer(t.View(), None)
  {
    hide Scanning, Advanced, AddrToIndex, RootEntered, Asked, InHalf, PageTable.Valid, PageTable.View;
    ghost var exact := Asked(t, q, start, end, amount, alignment) && amount > 0 && end == q.last * PAGE_SIZE && start <= end;
    var regionStart: nat, c: nat := 0, 0;
    var cur: Addr := start;
    StartScan(t, q, start, end, amount, alignment);
    while cur < end
      invariant start <= cur && cur % PAGE_SIZE == 0 && RootEntered(t, start, cur, end)
      invariant exact ==> Scanning(q, t.View(), cur, end, regionStart, c)
      decreases if cur < end then end - cur else 0
    {
      RootKnown(t);
      var pml3 := Peek(t, L4, t.pml4, AddrToIndex(cur, 4));
      if pml3.None? {
        cur, regionStart, c := RootRound(t, start, cur, end, amount, alignment, regionStart, c, q);
      } else {
        var pml2 := Peek(t, L3(AddrToIndex(cur, 4)), pml3.value, AddrToIndex(cur, 3));
        if pml2.None? {
          cur, regionStart, c := BlockRound(t, start, cur, end, PML3_SIZE, amount, alignment, regionStart, c, q);
        } else {
          var pml1 := Peek(t, L2(AddrToIndex(cur, 4), AddrToIndex(cur, 3)), pml2.value, AddrToIndex(cur, 2));
          if pml1.None? {
            cur, regionStart, c := BlockRound(t, start, cur, end, PML2_SIZE, amount, alignment, regionStart, c, q);
          } else {
            var found;
            found, cur, regionStart, c := TableRound(t, start, cur, end, pml1.value, amount, alignment, regionStart, c, q);
            if found { return Some(regionStart); }
            continue;
          }
        }
      }
      if c >= amount {
        if exact { Met(t, q, start, cur, end, regionStart, c, amount, alignment); }
        return Some(regionStart);
      }
      if exact { Continued(t, q, start, cur, end, regionStart, c, amount, alignment); }
    }
    if exact { Exhausted(q, t.View(), cur, end, regionStart, c); }
    return None;
  }

  lemma RootKnown(t: PageTable)
    requires t.Valid()
    ensures Lookup(t.tree.shape, L4) == Some(t.pml4)
  {}

  lemma StartScan(t: PageTable, q: Query, start: Addr, end: nat, amount: nat, alignment: nat)
    ensures RootEntered(t, start, start, end)
    ensures Asked(t, q, start, end, amount, alignment) && amount > 0 && end == q.last * PAGE_SIZE && start <= end
      ==> Scanning(q, t.View(), start, end, 0, 0)
  {}

  lemma Met(t: PageTable, q: Query, start: Addr, cur: nat, end: nat, regionStart: nat, c: nat, amount: nat, alignment: nat)
    requires Asked(t, q, start, end, amount, alignment) && Advanced(q, t.View(), cur, end, regionStart, c) && c >= amount
    ensures regionStart % PAGE_SIZE == 0 && q.Answer(t.View(), Some(regionStart / PAGE_SIZE))
  {}

  lemma Continued(t: PageTable, q: Query, start: Addr, cur: nat, end: nat, regionStart: nat, c: nat, amount: nat,
      alignment: nat)
    requires Asked(t, q, start, end, amount, alignment) && Advanced(q, t.View(), cur, end, regionStart, c) && c < amount
    ensures Scanning(q, t.View(), cur, end, regionStart, c)
  {}

  lemma Exhausted(q: Query, f: FlatMap, cur: nat, end: nat, regionStart: nat, c: nat)
    requires Scanning(q, f, cur, end, regionStart, c) && cur >= end
    ensures q.Answer(f, None)
  {
    q.NotFound(f, c);
  }

  function Strict(q: Query): Query { q.(absent := {}) }

  /** Some unaligned start under an absent top-level entry fits, and no aligned start below it does. */
  ghost predicate LooseFirst(q: Query, f: FlatMap)
    requires q.alignment > 0
  {
    exists b: nat :: q.Fits(f, b) && !Strict(q).StartOk(b) && forall a: nat :: a < b ==> !Strict(q).Fits(f, a)
  }

  /** The answer is the lowest aligned fit exactly when no unaligned start under an absent entry comes first. */
  lemma AlignedUnlessLoose(q: Query, f: FlatMap, r: Option<nat>)
    requires q.alignment > 0 && q.n > 0 && q.Answer(f, r)
    ensures Strict(q).Answer(f, r) <==> !LooseFirst(q, f)
  {
    hide FreeRun;
    forall b: nat ensures Strict(q).Fits(f, b) ==> q.Fits(f, b) {}
    if r.Some? && !Strict(q).StartOk(r.value) {
      assert q.Fits(f, r.value);
      assert LooseFirst(q, f);
    }
  }

  /** No unaligned start comes first if the range meets no absent top-level entry. */
  lemma StrictIfPresent(q: Query, f: FlatMap)
    requires q.alignment > 0 && q.n > 0
    requires forall b: nat :: q.first <= b < q.last ==> b / PML4_PAGES % INDEX_AMOUNT !in q.absent
    ensures !LooseFirst(q, f)
  {
    hide FreeRun;
    forall b: nat ensures q.Fits(f, b) ==> Strict(q).StartOk(b) {}
  }

  /** For an alignment that divides the size of a top-level entry, only the start of the range can come first
      unaligned. */
  lemma LooseAtStart(q: Query, f: FlatMap)
    requires q.alignment > 0 && q.n > 0 && PML4_SIZE % q.alignment == 0
    ensures LooseFirst(q, f) <==>
      && q.first * PAGE_SIZE % q.alignment != 0 && q.first / PML4_PAGES % INDEX_AMOUNT in q.absent
      && q.first + q.n <= q.last && FreeRun(f, q.first, q.n)
  {
    hide FreeRun;
    forall b: nat ensures q.Loose(b) && b * PAGE_SIZE % q.alignment != 0 ==> b == q.first {
      if b % PML4_PAGES == 0 { BlockStartAligned(b * PAGE_SIZE, q.alignment); }
    }
    if q.Fits(f, q.first) && !Strict(q).StartOk(q.first) {
      assert forall a: nat :: a < q.first ==> !Strict(q).Fits(f, a);
    }
  }

  /** page_table_find_unmapped_region for requests below 512 pages, with the search range in one half. */
  method FindSmallRegion(t: PageTable, startAddr: Addr, endAddr: Addr, amount: nat, alignment: nat) returns (r: Option<nat>)
    requires t.Valid() && InHalf(startAddr, endAddr)
    ensures var al := if alignment < PAGE_SIZE then PAGE_SIZE else alignment;
      var q := Query(startAddr / PAGE_SIZE, endAddr / PAGE_SIZE, amount, al, Absent(t));
      Exact(al, endAddr) && amount > 0 && startAddr <= endAddr ==>
        && (r.Some? ==> r.value % PAGE_SIZE == 0)
        && q.Answer(t.View(), if r.Some? then Some(r.value / PAGE_SIZE) else None)
        && (Strict(q).Answer(t.View(), if r.Some? then Some(r.value / PAGE_SIZE) else None) <==> !LooseFirst(q, t.View()))
  {
    hide Flat, WellFormed, FreeRun, LooseFirst;
    var currentAddr := startAddr / PAGE_SIZE * PAGE_SIZE;
    var al := if alignment < PAGE_SIZE then PAGE_SIZE else alignment;
    ghost var q := Query(startAddr / PAGE_SIZE, endAddr / PAGE_SIZE, amount, al, Absent(t));
    SamePage(startAddr);
    r := SearchPages(t, currentAddr, endAddr, amount, al, q);
    if Exact(al, endAddr) && amount > 0 && startAddr <= endAddr {
      AlignedUnlessLoose(q, t.View(), if r.Some? then Some(r.value / PAGE_SIZE) else None);
    }
  }

  lemma SamePage(addr: Addr)
    ensures var base := addr / PAGE_SIZE * PAGE_SIZE;
      base % PAGE_SIZE == 0 && base / PAGE_SIZE == addr / PAGE_SIZE
  {
    DivUnique(addr / PAGE_SIZE * PAGE_SIZE, PAGE_SIZE, addr / PAGE_SIZE, 0);
  }

  /** An empty table: for a range that starts off the alignment, its very start is returned. */
  method AnswersUnaligned(frames: set<Pfn>) returns (t: PageTable, r: Option<nat>)
    requires frames != {}
    ensures fresh(t) && t.Valid() && Blank(t.View())
    ensures r == Some(PAGE_SIZE) && LooseFirst(Query(1, 512, 1, 2 * PAGE_SIZE, Absent(t)), t.View())
  {
    hide Flat, WellFormed, Logged, Accounted, FreeRun, LooseFirst, Blank, Honest;
    t := new PageTable(false);
    var ok := t.Init(frames);
    r := FindSmallRegion(t, PAGE_SIZE, PML2_SIZE, 1, 2 * PAGE_SIZE);
    ghost var q := Query(1, 512, 1, 2 * PAGE_SIZE, Absent(t));
    assert 0 in q.absent;
    BlankFree(t.View(), 1, 1);
    assert q.Fits(t.View(), 1);
    LooseAtStart(q, t.View());
  }

  lemma BlankFree(f: FlatMap, a: nat, n: nat)
    requires Blank(f)
    ensures FreeRun(f, a, n)
  {}
}
