/** The search for unmapped regions of 512 pages and more (page_table_find_unmapped_region): it looks for a missing
    table, not for a run of pages. */
module LargeSearch {
  import opened Common
  import opened PageTree
  import opened PageAddr
  import opened Rounding
  import opened FrameLedger
  import opened TableState
  import opened FlatSpec
  import opened PageTables
  import opened PageSearch

  /** The table that would hold the entry for a, one level up for the largest requests. */
  function NodeAt(a: Addr, huge: bool): Node {
    if huge then L2(AddrToIndex(a, 4), AddrToIndex(a, 3)) else L1(AddrToIndex(a, 4), AddrToIndex(a, 3), AddrToIndex(a, 2))
  }

  function Granule(huge: bool): nat { if huge then PML3_SIZE else PML2_SIZE }

  /** a is aligned and its table is missing. */
  ghost predicate Hole(shape: map<Node, Pfn>, a: Addr, alignment: nat, huge: bool)
    requires alignment > 0
  {
    a % alignment == 0 && NodeAt(a, huge) !in shape
  }

  /** No hole from start up to cur. */
  ghost predicate Swept(shape: map<Node, Pfn>, start: nat, cur: nat, end: nat, alignment: nat, huge: bool)
    requires alignment > 0
  {
    forall b: Addr :: start <= b < cur && b < end ==> !Hole(shape, b, alignment, huge)
  }

  /** r is the lowest hole of the range, if there is one. */
  ghost predicate LowestHole(shape: map<Node, Pfn>, start: nat, end: nat, alignment: nat, huge: bool, r: Option<nat>)
    requires alignment > 0
  {
    match r
    case Some(a) =>
      start <= a < end <= ADDR_LIMIT && Hole(shape, a, alignment, huge) && Swept(shape, start, a, end, alignment, huge)
    case None => Swept(shape, start, end, end, alignment, huge)
  }

  /** Addresses up to the next multiple of size share their indexes down to that level. */
  lemma SameIndexes(a: Addr, b: Addr, size: nat)
    requires (size == PML4_SIZE || size == PML3_SIZE || size == PML2_SIZE) && a <= b < (a / size + 1) * size
    ensures AddrToIndex(b, 4) == AddrToIndex(a, 4)
    ensures size <= PML3_SIZE ==> AddrToIndex(b, 3) == AddrToIndex(a, 3)
    ensures size == PML2_SIZE ==> AddrToIndex(b, 2) == AddrToIndex(a, 2)
  {
    SameQuotients(a, b, size);
  }

  lemma SameQuotients(a: nat, b: nat, size: nat)
    requires (size == PML4_SIZE || size == PML3_SIZE || size == PML2_SIZE) && a <= b < (a / size + 1) * size
    ensures b / PML4_SIZE == a / PML4_SIZE
    ensures size <= PML3_SIZE ==> b / PML3_SIZE == a / PML3_SIZE
    ensures size == PML2_SIZE ==> b / PML2_SIZE == a / PML2_SIZE
  {
    var q := a / size;
    assert q * size <= b < q * size + size;
    DivUnique(b, size, q, b - q * size);
    Coarser(a);
    Coarser(b);
  }

  lemma Coarser(x: nat)
    ensures x / PML3_SIZE == x / PML2_SIZE / 512
    ensures x / PML4_SIZE == x / PML3_SIZE / 512
  {}

  /** The first missing entry on the path of cur covers cur to the end of its region. */
  ghost predicate Missing(shape: map<Node, Pfn>, cur: Addr, size: nat) {
    var i4, i3, i2 := AddrToIndex(cur, 4), AddrToIndex(cur, 3), AddrToIndex(cur, 2);
    || (size == PML4_SIZE && L3(i4) !in shape)
    || (size == PML3_SIZE && L2(i4, i3) !in shape)
    || (size == PML2_SIZE && L1(i4, i3, i2) !in shape)
  }

  lemma MissingHole(mem: Memory, root: Pfn, t: Tree, cur: Addr, size: nat, a: Addr, huge: bool)
    requires WellFormed(mem, root, t.shape, t.place) && Missing(t.shape, cur, size) && (huge ==> size >= PML3_SIZE)
    requires cur <= a < (cur / size + 1) * size
    ensures NodeAt(a, huge) !in t.shape
  {
    hide AddrToIndex;
    SameIndexes(cur, a, size);
    var n := NodeAt(a, huge);
    assert n in t.shape ==> n.Parent() in t.shape;
    assert n in t.shape && n.L1? ==> n.Parent().Parent() in t.shape;
  }

  lemma SweepUnaligned(shape: map<Node, Pfn>, start: nat, cur: nat, end: nat, alignment: nat, huge: bool, next: nat)
    requires alignment > 0 && Swept(shape, start, cur, end, alignment, huge) && start <= cur
    requires cur + alignment <= ADDR_LIMIT
    ensures var a := RoundUp(cur, alignment);
      && cur <= a < cur + alignment && a % alignment == 0 && Swept(shape, start, a, end, alignment, huge)
      && (a >= next || a >= end ==> Swept(shape, start, next, end, alignment, huge))
  {
    hide RoundUp;
    RoundUpLeast(cur, alignment);
  }

  lemma SweepPresent(shape: map<Node, Pfn>, start: nat, cur: Addr, end: nat, alignment: nat, huge: bool)
    requires alignment > 0 && Swept(shape, start, cur, end, alignment, huge) && NodeAt(cur, huge) in shape
    ensures Swept(shape, start, (cur / Granule(huge) + 1) * Granule(huge), end, alignment, huge)
  {
    hide AddrToIndex;
    var next := (cur / Granule(huge) + 1) * Granule(huge);
    forall b: Addr | cur <= b < next ensures NodeAt(b, huge) == NodeAt(cur, huge) { SameIndexes(cur, b, Granule(huge)); }
  }

  /** One missing entry: the aligned address in its region, if any is left, else the end of the region. */
  method TryRegion(t: PageTable, start: Addr, cur: Addr, end: Addr, alignment: nat, size: nat, huge: bool)
    returns (hit: bool, aligned: nat, next: Addr)
    requires t.Valid() && InHalf(start, end) && start <= cur < end && alignment > 0
    requires Missing(t.tree.shape, cur, size) && (huge ==> size >= PML3_SIZE)
    ensures cur < next
    ensures end + alignment <= ADDR_LIMIT && Swept(t.tree.shape, start, cur, end, alignment, huge) ==>
      if hit then LowestHole(t.tree.shape, start, end, alignment, huge, Some(aligned))
      else Swept(t.tree.shape, start, next, end, alignment, huge)
  {
    hide AddrToIndex, RoundUp, WellFormed, Missing;
    SizeOf(t.tree.shape, cur, size);
    BlockSkip(cur, size);
    aligned := RoundUp(cur, alignment);
    next := RoundUp(cur + 1, size);
    hit := aligned < next && aligned < end;
    if end + alignment <= ADDR_LIMIT && Swept(t.tree.shape, start, cur, end, alignment, huge) {
      SweepUnaligned(t.tree.shape, start, cur, end, alignment, huge, next);
      if hit { MissingHole(t.mem, t.pml4, t.tree, cur, size, aligned, huge); }
    }
  }

  lemma SizeOf(shape: map<Node, Pfn>, cur: Addr, size: nat)
    requires Missing(shape, cur, size)
    ensures size == PML4_SIZE || size == PML3_SIZE || size == PML2_SIZE
  {}

  /** The two loops over missing entries; the one for the largest requests stops one level higher. */
  method SearchHoles(t: PageTable, start: Addr, end: Addr, alignment: nat, huge: bool) returns (r: Option<nat>)
    requires t.Valid() && InHalf(start, end) && alignment > 0
    ensures end + alignment <= ADDR_LIMIT ==> LowestHole(t.tree.shape, start, end, alignment, huge, r)
  {
    hide AddrToIndex, RoundUp, WellFormed, Swept, PageTable.View;
    ghost var exact := end + alignment <= ADDR_LIMIT;
    var cur: Addr := start;
    NothingSwept(t.tree.shape, start, end, alignment, huge);
    while cur < end
      invariant start <= cur && (exact ==> Swept(t.tree.shape, start, cur, end, alignment, huge))
      decreases if cur < end then end - cur else 0
    {
      RootKnown(t);
      var pml3 := Peek(t, L4, t.pml4, AddrToIndex(cur, 4));
      var size := 0;
      if pml3.None? {
        size := PML4_SIZE;
      } else {
        var pml2 := Peek(t, L3(AddrToIndex(cur, 4)), pml3.value, AddrToIndex(cur, 3));
        if pml2.None? {
          size := PML3_SIZE;
        } else if !huge {
          var pml1 := Peek(t, L2(AddrToIndex(cur, 4), AddrToIndex(cur, 3)), pml2.value, AddrToIndex(cur, 2));
          if pml1.None? { size := PML2_SIZE; }
        }
      }
      if size != 0 {
        var hit, aligned, next := TryRegion(t, start, cur, end, alignment, size, huge);
        if hit { return Some(aligned); }
        cur := next;
      } else {
        if exact { SweepPresent(t.tree.shape, start, cur, end, alignment, huge); }
        BlockSkip(cur, Granule(huge));
        cur := RoundUp(cur + 1, Granule(huge));
      }
    }
    if exact { SweptAll(t.tree.shape, start, cur, end, alignment, huge); }
    return None;
  }

  lemma NothingSwept(shape: map<Node, Pfn>, start: nat, end: nat, alignment: nat, huge: bool)
    requires alignment > 0
    ensures Swept(shape, start, start, end, alignment, huge)
  {}

  lemma SweptAll(shape: map<Node, Pfn>, start: nat, cur: nat, end: nat, alignment: nat, huge: bool)
    requires alignment > 0 && Swept(shape, start, cur, end, alignment, huge) && end <= cur
    ensures Swept(shape, start, end, end, alignment, huge)
  {}

  // ---- what the answer is worth -----------------------------------------------------------------------

  /** How many pages from a on the missing table vouches for. */
  function Vouched(a: nat, huge: bool): nat { ((a / Granule(huge) + 1) * Granule(huge) - a) / PAGE_SIZE }

  /** The region returned is free up to the end of the missing table. */
  lemma HoleFree(mem: Memory, root: Pfn, t: Tree, a: Addr, huge: bool)
    requires WellFormed(mem, root, t.shape, t.place) && NodeAt(a, huge) !in t.shape && a % PAGE_SIZE == 0
    ensures FreeRun(Flat(mem, root), a / PAGE_SIZE, Vouched(a, huge))
  {
    hide Flat, AddrToIndex, WellFormed, Busy;
    StopAligned(a, huge);
    FreeBlock(mem, root, t, a, (a / Granule(huge) + 1) * Granule(huge), Granule(huge));
  }

  /** Beyond that nothing was looked at: a missing table at a stands for n free pages, whatever else is mapped, if
      and only if the n pages end with the table. */
  lemma HoleVouchesExactly(a: Addr, huge: bool, n: nat)
    requires a % PAGE_SIZE == 0
    ensures (forall mem: Memory, root: Pfn, pool: set<Pfn>, t: Tree ::
              Sound(mem, root, pool, t) && NodeAt(a, huge) !in t.shape ==> FreeRun(Flat(mem, root), a / PAGE_SIZE, n))
      <==> n <= Vouched(a, huge)
  {
    hide Flat, AddrToIndex, WellFormed, Busy, Vouched, NodeAt;
    if n <= Vouched(a, huge) {
      forall mem: Memory, root: Pfn, pool: set<Pfn>, t: Tree | Sound(mem, root, pool, t) && NodeAt(a, huge) !in t.shape
        ensures FreeRun(Flat(mem, root), a / PAGE_SIZE, n)
      {
        HoleFree(mem, root, t, a, huge);
      }
    } else {
      var w := a / PAGE_SIZE + Vouched(a, huge);
      var mem, root, pool, t := OnePage(w % PAGE_LIMIT);
      NextGranule(a, huge);
      BusyIs(Flat(mem, root), w);
      assert !FreeRun(Flat(mem, root), a / PAGE_SIZE, n);
    }
  }

  lemma BusyIs(f: FlatMap, p: nat)
    ensures p % PAGE_LIMIT in f && f[p % PAGE_LIMIT].Present() ==> Busy(f, p)
  {}

  /** The page right behind the missing table is not reached through it. */
  lemma NextGranule(a: Addr, huge: bool)
    requires a % PAGE_SIZE == 0
    ensures NodeAt(a, huge) !in {L4} + PathTo(LeafNode((a / PAGE_SIZE + Vouched(a, huge)) % PAGE_LIMIT))
  {
    hide AddrToIndex, LeafNode, Vouched;
    var p := a / PAGE_SIZE;
    var w := p + Vouched(a, huge);
    StopPage(a, huge);
    IndexOfPage(a);
    LinearNode(w);
    if huge { Consecutive(p / 0x4_0000); } else { Consecutive(p / 512); }
  }

  lemma Consecutive(x: nat)
    ensures x % 512 != (x + 1) % 512
  {}

  lemma StopPage(a: Addr, huge: bool)
    requires a % PAGE_SIZE == 0
    ensures var size := Granule(huge) / PAGE_SIZE; (a / PAGE_SIZE + Vouched(a, huge)) / size == a / PAGE_SIZE / size + 1
  {
    StopAligned(a, huge);
    if huge { assert a / PAGE_SIZE / 0x4_0000 == a / PML3_SIZE; } else { assert a / PAGE_SIZE / 512 == a / PML2_SIZE; }
  }

  const ALL := NONE.(present := true, write := true, user := true)

  /** A table with one page mapped has the levels on the way to it and no others. */
  lemma OnePage(v: Vpn) returns (mem: Memory, root: Pfn, pool: set<Pfn>, t: Tree)
    ensures Sound(mem, root, pool, t) && Flat(mem, root)[v].Present() && t.shape.Keys == {L4} + PathTo(LeafNode(v))
  {
    hide Flat, WellFormed, Resolve, MemFor, TreeFor;
    var n := LeafNode(v);
    var nodes := {L4} + PathTo(n);
    root, pool, mem, t := 0, {}, MemFor(nodes), TreeFor(nodes);
    Populated(nodes);
    ResolveIsShape(mem, root, t.shape, t.place, n);
    StoreSound(mem, root, pool, t, v, t.shape[n], ZERO.(flags := ALL));
    mem := StoreMem(mem, t.shape[n], v % INDEX_AMOUNT, ZERO.(flags := ALL));
  }

  /** A request is met for certain only if it asks for just one table's pages and the table's start is what is
      returned. */
  lemma WholeTableOnly(a: Addr, n: nat)
    requires a % PAGE_SIZE == 0 && n >= PML2_SIZE / PAGE_SIZE
    ensures n <= Vouched(a, n >= PML3_SIZE / PAGE_SIZE) <==>
      || (n == PML2_SIZE / PAGE_SIZE && a % PML2_SIZE == 0)
      || (n == PML3_SIZE / PAGE_SIZE && a % PML3_SIZE == 0)
  {}

  // ---- tables with given levels -----------------------------------------------------------------------------

  /** A frame for each place of the tree. */
  function FrameFor(n: Node): Pfn {
    match n
    case L4 => 0
    case L3(a) => 1 + a
    case L2(a, b) => 513 + 512 * a + b
    case L1(a, b, c) => 0x4_0201 + 512 * (512 * a + b) + c
  }

  lemma FrameUnique(m: Node, n: Node)
    ensures FrameFor(m) == FrameFor(n) ==> m == n
  {}

  ghost predicate Closed(nodes: set<Node>) { L4 in nodes && forall n :: n in nodes && !n.L4? ==> n.Parent() in nodes }

  ghost function LevelFor(nodes: set<Node>, n: Node): Pml {
    seq(INDEX_AMOUNT, i requires 0 <= i < INDEX_AMOUNT =>
      if !n.L1? && n.Child(i) in nodes then LevelEntry(ALL, FrameFor(n.Child(i))) else ZERO)
  }

  ghost function ShapeFor(nodes: set<Node>): map<Node, Pfn> { map n | n in nodes :: FrameFor(n) }

  ghost function FramesFor(nodes: set<Node>): set<Pfn> { set n | n in nodes :: FrameFor(n) }

  /** The place whose frame p is. */
  ghost function PlaceFor(nodes: set<Node>, p: Pfn): (n: Node)
    requires p in FramesFor(nodes)
    ensures n in nodes && FrameFor(n) == p
  {
    var n :| n in nodes && FrameFor(n) == p;
    n
  }

  ghost function TreeFor(nodes: set<Node>): Tree {
    Tree(ShapeFor(nodes), map p | p in FramesFor(nodes) :: PlaceFor(nodes, p))
  }

  ghost function MemFor(nodes: set<Node>): Memory {
    map p | p in FramesFor(nodes) :: LevelFor(nodes, PlaceFor(nodes, p))
  }

  lemma ForEach(nodes: set<Node>, n: Node)
    requires n in nodes
    ensures FrameFor(n) in FramesFor(nodes) && PlaceFor(nodes, FrameFor(n)) == n
  {
    FrameUnique(n, PlaceFor(nodes, FrameFor(n)));
  }

  lemma BothWays(nodes: set<Node>)
    ensures Bijective(TreeFor(nodes).shape, TreeFor(nodes).place)
  {
    hide FrameFor;
    var t := TreeFor(nodes);
    forall n | n in t.shape ensures t.shape[n] in t.place && t.place[t.shape[n]] == n { ForEach(nodes, n); }
  }

  /** Any set of places with the ways to them is the set of levels of some sound table. */
  lemma Populated(nodes: set<Node>)
    requires Closed(nodes)
    ensures Sound(MemFor(nodes), 0, {}, TreeFor(nodes)) && TreeFor(nodes).shape.Keys == nodes
  {
    hide FrameFor, LevelFor, PlaceFor, Bijective;
    BothWays(nodes);
    RootFrame();
    var mem, t := MemFor(nodes), TreeFor(nodes);
    forall n | n in t.shape ensures Linked(mem, t.shape, n) {
      ForEach(nodes, n);
      LevelLinked(nodes, mem, t.shape, n);
    }
    assert mem.Keys == t.place.Keys == FramesFor(nodes);
  }

  lemma RootFrame()
    ensures FrameFor(L4) == 0
  {}

  lemma LevelLinked(nodes: set<Node>, mem: Memory, shape: map<Node, Pfn>, n: Node)
    requires shape.Keys == nodes && n in nodes && forall m :: m in nodes ==> shape[m] == FrameFor(m)
    requires FrameFor(n) in mem && mem[FrameFor(n)] == LevelFor(nodes, n)
    ensures Linked(mem, shape, n)
  {}

  /** Every place down to the level searched, but one. */
  ghost function AllBut(x: Node, huge: bool): set<Node> {
    {L4} + (set a: nat | a < 512 :: L3(a)) + (set a: nat, b: nat | a < 512 && b < 512 :: L2(a, b)) +
    (if huge then {} else set a: nat, b: nat, c: nat | a < 512 && b < 512 && c < 512 :: L1(a, b, c)) - {x}
  }

  lemma AllButOne(x: Node, huge: bool)
    requires if huge then x.L2? else x.L1?
    ensures Closed(AllBut(x, huge))
    ensures forall n: Node :: (if huge then n.L2? else n.L1?) ==> (n in AllBut(x, huge) <==> n != x)
  {}

  lemma OneMissing(a: Addr, huge: bool) returns (mem: Memory, t: Tree)
    ensures Sound(mem, 0, {}, t) && forall b: Addr :: NodeAt(b, huge) in t.shape <==> NodeAt(b, huge) != NodeAt(a, huge)
  {
    hide AddrToIndex, MemFor, TreeFor, Sound, AllBut;
    var nodes := AllBut(NodeAt(a, huge), huge);
    AllButOne(NodeAt(a, huge), huge);
    Populated(nodes);
    mem, t := MemFor(nodes), TreeFor(nodes);
  }

  // ---- where the region ends ----------------------------------------------------------------------------------

  /** No aligned address of the range comes before a in its granule. */
  ghost predicate FirstAligned(a: nat, start: nat, alignment: nat, huge: bool)
    requires alignment > 0
  {
    start <= a && a % alignment == 0
    && forall b: nat :: start <= b < a && b / Granule(huge) == a / Granule(huge) ==> b % alignment != 0
  }

  lemma SameGranule(a: Addr, b: Addr, huge: bool)
    requires a / Granule(huge) == b / Granule(huge)
    ensures NodeAt(a, huge) == NodeAt(b, huge)
  {
    hide AddrToIndex;
    if a <= b { SameIndexes(a, b, Granule(huge)); } else { SameIndexes(b, a, Granule(huge)); }
  }

  /** Inside one half each table belongs to one granule. */
  lemma OneGranule(a: Addr, b: Addr, huge: bool, start: nat, end: nat)
    requires InHalf(start, end) && start <= a < end && start <= b < end && NodeAt(a, huge) == NodeAt(b, huge)
    ensures a / Granule(huge) == b / Granule(huge)
  {
    TableNumber(a, huge, start, end);
    TableNumber(b, huge, start, end);
  }

  lemma TableNumber(a: Addr, huge: bool, start: nat, end: nat)
    requires InHalf(start, end) && start <= a < end
    ensures var g := a / Granule(huge); var n := NodeAt(a, huge);
      if huge then g == (if end <= 256 * PML4_SIZE then 0 else 0x3_FFFC_0000) + 512 * n.i4 + n.i3
      else g == (if end <= 256 * PML4_SIZE then 0 else 0x7FF_F800_0000) + 512 * (512 * n.i4 + n.i3) + n.i2
  {
    Coarser(a);
    var z := a / PML4_SIZE;
    RootBounds(a, z);
    if end > 256 * PML4_SIZE { DivUnique(z, 512, 0xFFFF, z - 0x1FF_FE00); } else { DivUnique(z, 512, 0, z); }
  }

  /** Every region the search returns lies in the range, whatever is mapped, if and only if the first aligned
      address of each granule that meets the range leaves room for it. */
  lemma InRangeExactly(start: nat, end: nat, alignment: nat, huge: bool, n: nat)
    requires alignment > 0 && InHalf(start, end)
    ensures (forall mem: Memory, root: Pfn, pool: set<Pfn>, t: Tree, a: nat ::
              Sound(mem, root, pool, t) && LowestHole(t.shape, start, end, alignment, huge, Some(a)) ==>
                a + n * PAGE_SIZE <= end)
      <==> forall a: nat :: FirstAligned(a, start, alignment, huge) && a < end ==> a + n * PAGE_SIZE <= end
  {
    hide NodeAt, WellFormed, Sound;
    if forall a: nat :: FirstAligned(a, start, alignment, huge) && a < end ==> a + n * PAGE_SIZE <= end {
      forall mem: Memory, root: Pfn, pool: set<Pfn>, t: Tree, a: nat
        | Sound(mem, root, pool, t) && LowestHole(t.shape, start, end, alignment, huge, Some(a))
        ensures a + n * PAGE_SIZE <= end
      {
        LowestIsFirst(t.shape, start, end, alignment, huge, a);
      }
    } else {
      var a: nat :| FirstAligned(a, start, alignment, huge) && a < end && a + n * PAGE_SIZE > end;
      var mem, t := OneMissing(a, huge);
      FirstIsLowest(t.shape, start, end, alignment, huge, a);
      assert LowestHole(t.shape, start, end, alignment, huge, Some(a));
    }
  }

  lemma LowestIsFirst(shape: map<Node, Pfn>, start: nat, end: nat, alignment: nat, huge: bool, a: nat)
    requires alignment > 0 && LowestHole(shape, start, end, alignment, huge, Some(a))
    ensures FirstAligned(a, start, alignment, huge)
  {
    hide NodeAt;
    forall b: nat | start <= b < a && b / Granule(huge) == a / Granule(huge) ensures b % alignment != 0 {
      SameGranule(a, b, huge);
      assert !Hole(shape, b, alignment, huge);
    }
  }

  lemma FirstIsLowest(shape: map<Node, Pfn>, start: nat, end: nat, alignment: nat, huge: bool, a: nat)
    requires alignment > 0 && InHalf(start, end) && a < end && FirstAligned(a, start, alignment, huge)
    requires forall b: Addr :: NodeAt(b, huge) in shape <==> NodeAt(b, huge) != NodeAt(a, huge)
    ensures LowestHole(shape, start, end, alignment, huge, Some(a))
  {
    hide NodeAt;
    forall b: Addr | start <= b < a && b < end ensures !Hole(shape, b, alignment, huge) {
      if NodeAt(b, huge) == NodeAt(a, huge) { OneGranule(a, b, huge, start, end); }
    }
  }

  lemma StopAligned(a: nat, huge: bool)
    requires a % PAGE_SIZE == 0
    ensures var stop := (a / Granule(huge) + 1) * Granule(huge);
      stop % PAGE_SIZE == 0 && a <= stop && Vouched(a, huge) == stop / PAGE_SIZE - a / PAGE_SIZE
  {
    var w := if huge then 0x4_0000 else 512;
    var z, p := a / Granule(huge) + 1, a / PAGE_SIZE;
    var stop := z * Granule(huge);
    assert stop == z * w * PAGE_SIZE && a == p * PAGE_SIZE && a <= stop;
    DivUnique(stop, PAGE_SIZE, z * w, 0);
    DivUnique(stop - a, PAGE_SIZE, z * w - p, 0);
  }

  /** page_table_find_unmapped_region. */
  method FindUnmappedRegion(t: PageTable, startAddr: Addr, endAddr: Addr, amount: nat,
      alignment: nat) returns (r: Option<nat>)
    requires t.Valid() && InHalf(startAddr, endAddr)
    ensures var al := if alignment < PAGE_SIZE then PAGE_SIZE else alignment;
      var shape := t.tree.shape;
      if amount >= PML2_SIZE / PAGE_SIZE
      then
        endAddr + al <= ADDR_LIMIT ==>
          LowestHole(shape, startAddr / PAGE_SIZE * PAGE_SIZE, endAddr, al, amount >= PML3_SIZE / PAGE_SIZE, r)
      else
        var q := Query(startAddr / PAGE_SIZE, endAddr / PAGE_SIZE, amount, al, Absent(t));
        Exact(al, endAddr) && amount > 0 && startAddr <= endAddr ==>
          && (r.Some? ==> r.value % PAGE_SIZE == 0)
          && q.Answer(t.View(), if r.Some? then Some(r.value / PAGE_SIZE) else None)
  {
    hide Flat, WellFormed, AddrToIndex, FreeRun, LowestHole;
    if amount < PML2_SIZE / PAGE_SIZE {
      r := FindSmallRegion(t, startAddr, endAddr, amount, alignment);
      return;
    }
    var currentAddr := startAddr / PAGE_SIZE * PAGE_SIZE;
    var al := if alignment < PAGE_SIZE then PAGE_SIZE else alignment;
    r := SearchHoles(t, currentAddr, endAddr, al, amount >= PML3_SIZE / PAGE_SIZE);
  }

  /** If address 0 is a hole, it is the lowest. */
  lemma ZeroFirst(shape: map<Node, Pfn>, end: nat, alignment: nat, huge: bool, r: Option<nat>)
    requires alignment > 0 && 0 < end && LowestHole(shape, 0, end, alignment, huge, r) && NodeAt(0, huge) !in shape
    ensures r == Some(0)
  {
    hide NodeAt;
    assert Hole(shape, 0, alignment, huge);
  }

  lemma OtherTable(t0: Tree, pool0: set<Pfn>, t: Tree, pool: set<Pfn>, tried: nat, done: nat)
    requires t0.shape.Keys == {L4} && Grew(t0, pool0, t, pool, PML2_SIZE, tried, done) && tried <= 1
    ensures NodeAt(0, false) !in t.shape
  {
    forall v: Vpn | Offset(PML2_SIZE, v) < 1 ensures v == 512 { PageAtOffset(PML2_SIZE, v); }
  }

  /** A table with nothing but page 512 mapped. */
  method BusyTable(frames: set<Pfn>, ghost amount: nat) returns (t: PageTable)
    requires |frames| > 4 && amount > 512
    ensures fresh(t) && t.Valid() && Total(t.View())
    ensures t.View()[512].Present() && forall v: Vpn :: v != 512 ==> t.View()[v] == ZERO
    ensures !FreeRun(t.View(), 0, amount) && NodeAt(0, false) !in t.tree.shape
  {
    hide Flat, Sound, Logged, Accounted, FreeRun, OnPaths, NodeAt, MappedPrefix, Honest, Grew, Extends, PageAt, LeafNode,
      Blank, Handover, Offset, MapEntry, Members;
    t := new PageTable(false);
    var ok := t.Init(frames);
    ghost var f, l, t0, pool0 := t.View(), t.ledger, t.tree, t.pool;
    ghost var done;
    ok, done := t.Map(PML2_SIZE, 0, 1, ALL, CALLBACK_NONE);
    MappedBusy(f, l, t.View(), t.ledger, done, amount);
    FirstServed(t.mem, t.pml4, t0, pool0, t.tree, t.pool, PML2_SIZE, done, frames);
    OtherTable(t0, pool0, t.tree, t.pool, 1, done);
  }

  /** One page is mapped, and every request for more than 512 pages is answered with a region that holds it. */
  method AnswersBusyRegion(frames: set<Pfn>, amount: nat) returns (t: PageTable, r: Option<nat>)
    requires |frames| > 4 && PML2_SIZE / PAGE_SIZE < amount < PML3_SIZE / PAGE_SIZE
    ensures fresh(t) && t.Valid() && Total(t.View())
    ensures t.View()[512].Present() && forall v: Vpn :: v != 512 ==> t.View()[v] == ZERO
    ensures r == Some(0) && !FreeRun(t.View(), 0, amount)
  {
    hide Flat, WellFormed, Logged, Accounted, FreeRun, AddrToIndex, LowestHole, NodeAt, Honest;
    t := BusyTable(frames, amount);
    r := FindUnmappedRegion(t, 0, PML3_SIZE, amount, PAGE_SIZE);
    ZeroFirst(t.tree.shape, PML3_SIZE, PAGE_SIZE, false, r);
  }

  lemma MappedBusy(f0: FlatMap, l0: Ledger, f: FlatMap, l: Ledger, done: nat, amount: nat)
    requires Blank(f0) && MappedPrefix(f0, l0, f, l, PML2_SIZE, FramesFrom(0, 1), done, ALL, CALLBACK_NONE) && amount > 512
    ensures Total(f) && done <= 1 && (done == 1 ==> !FreeRun(f, 0, amount) && f[512].Present())
    ensures done == 0 ==> !f[PageAt(PML2_SIZE, 0)].Present()
    ensures forall v: Vpn :: v != 512 ==> f[v] == ZERO
  {
    OffsetPageAt(PML2_SIZE, 0);
    forall v: Vpn | Offset(PML2_SIZE, v) < 1 ensures v == 512 { PageAtOffset(PML2_SIZE, v); }
    if done == 1 { assert Busy(f, 512); }
  }

  /** An empty table and a range of one page: the region returned for 512 pages ends far behind the range. */
  method AnswersPastEnd(frames: set<Pfn>) returns (t: PageTable, r: Option<nat>)
    requires frames != {}
    ensures fresh(t) && t.Valid() && Blank(t.View())
    ensures r == Some(0) && LowestHole(t.tree.shape, 0, PAGE_SIZE, PAGE_SIZE, false, r)
  {
    hide Flat, WellFormed, Logged, Accounted, LowestHole, NodeAt, Honest, Blank;
    t := new PageTable(false);
    var ok := t.Init(frames);
    GrewNone(t.tree, t.pool, PML2_SIZE);
    OtherTable(t.tree, t.pool, t.tree, t.pool, 0, 0);
    r := FindUnmappedRegion(t, 0, PAGE_SIZE, 512, PAGE_SIZE);
    ZeroFirst(t.tree.shape, PAGE_SIZE, PAGE_SIZE, false, r);
  }
}
