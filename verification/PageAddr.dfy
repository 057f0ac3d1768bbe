/** Address arithmetic of include/kernel/mem/paging_types.h over 64-bit addresses. */
module PageAddr {
  import opened PageTree
  import opened Rounding

  const PAGE_SIZE := 0x1000
  const ADDR_LIMIT := 0x1_0000_0000_0000_0000   // addresses are 64-bit and wrap

  const HIGHER_HALF_START := 0xFFFF_8000_0000_0000

  type Addr = a: nat | a < ADDR_LIMIT

  /** PML_ADDR_TO_INDEX: nine bits of the address per level. */
  function AddrToIndex(addr: Addr, level: nat): (i: Index)
    requires 1 <= level <= 4
  {
    match level
    case 1 => addr / 0x1000 % 512
    case 2 => addr / 0x20_0000 % 512
    case 3 => addr / 0x4000_0000 % 512
    case _ => addr / 0x80_0000_0000 % 512
  }

  /** The 36-bit page number the walk sees: bits 12 to 47. */
  function PageOf(addr: Addr): Vpn { addr / PAGE_SIZE % PAGE_LIMIT }

  function Next(addr: Addr): Addr { (addr + PAGE_SIZE) % ADDR_LIMIT }

  /** Page number reached after i pages from addr. */
  function PageAt(addr: Addr, i: nat): Vpn { (addr / PAGE_SIZE + i) % PAGE_LIMIT }

  /** How many pages after addr the walk first meets v. */
  function Offset(addr: Addr, v: Vpn): nat { (v - addr / PAGE_SIZE) % PAGE_LIMIT }

  /** Cutting to 36 bits keeps each of the four index fields. */
  lemma LowField(q: nat)
    ensures q % PAGE_LIMIT % 512 == q % 512
  {}

  lemma SecondField(q: nat)
    ensures q % PAGE_LIMIT / 512 % 512 == q / 512 % 512
  {
    DivMod(q, 512, 0x800_0000);
    ModMod(q / 512, 512, 0x4_0000);
  }

  lemma ThirdField(q: nat)
    ensures q % PAGE_LIMIT / 0x4_0000 % 512 == q / 0x4_0000 % 512
  {
    DivMod(q, 0x4_0000, 0x4_0000);
    ModMod(q / 0x4_0000, 512, 512);
  }

  lemma TopField(q: nat)
    ensures q % PAGE_LIMIT / 0x800_0000 == q / 0x800_0000 % 512
  {
    DivMod(q, 0x800_0000, 512);
  }

  /** The four index macros name the path to the page's leaf. */
  lemma PathOf(addr: Addr)
    ensures LeafNode(PageOf(addr)) == L1(AddrToIndex(addr, 4), AddrToIndex(addr, 3), AddrToIndex(addr, 2))
    ensures AddrToIndex(addr, 1) == PageOf(addr) % INDEX_AMOUNT
  {
    var q := addr / PAGE_SIZE;
    LowField(q); SecondField(q); ThirdField(q); TopField(q);
    assert addr / 0x20_0000 == q / 512;
    assert addr / 0x4000_0000 == q / 0x4_0000;
    assert addr / 0x80_0000_0000 == q / 0x800_0000;
  }

  lemma WrappedPage(x: nat)
    ensures x % ADDR_LIMIT / PAGE_SIZE == x / PAGE_SIZE % 0x10_0000_0000_0000
  {}

  lemma WrappedNext(x: nat)
    ensures (x % ADDR_LIMIT + PAGE_SIZE) % ADDR_LIMIT == (x + PAGE_SIZE) % ADDR_LIMIT
  {}

  lemma PageOfWrapped(q: nat)
    ensures q % 0x10_0000_0000_0000 % PAGE_LIMIT == q % PAGE_LIMIT
  {}

  lemma NextPage(addr: Addr, start: Addr, i: nat)
    requires addr == (start + i * PAGE_SIZE) % ADDR_LIMIT
    ensures PageOf(addr) == PageAt(start, i)
    ensures Next(addr) == (start + (i + 1) * PAGE_SIZE) % ADDR_LIMIT
  {
    var x := start + i * PAGE_SIZE;
    WrappedPage(x);
    PageOfWrapped(x / PAGE_SIZE);
    WrappedNext(x);
    assert x / PAGE_SIZE == start / PAGE_SIZE + i;
  }

  lemma OffsetPageAt(addr: Addr, i: nat)
    requires i < PAGE_LIMIT
    ensures Offset(addr, PageAt(addr, i)) == i
  {}

  lemma OffsetBound(addr: Addr, v: Vpn)
    ensures Offset(addr, v) < PAGE_LIMIT
  {}

  lemma PageAtOffset(addr: Addr, v: Vpn)
    ensures PageAt(addr, Offset(addr, v)) == v
  {}

  // ---- frames -------------------------------------------------------------------------------------

  /** The 40-bit frame field of an entry. */
  function Field(pfn: nat): Pfn { pfn % PFN_LIMIT }

  function Fields(pfns: seq<nat>): (r: seq<Pfn>)
    ensures |r| == |pfns| && forall j :: 0 <= j < |r| ==> r[j] == Field(pfns[j])
  {
    seq(|pfns|, j requires 0 <= j < |pfns| => Field(pfns[j]))
  }

  function PhysToPfn(phys: Addr): nat { phys / PAGE_SIZE }

  /** The frames of a physical range, one per page. */
  function FramesFrom(phys: Addr, amount: nat): (r: seq<Pfn>)
    ensures |r| == amount && forall j :: 0 <= j < amount ==> r[j] == Field(PhysToPfn(phys) + j)
  {
    seq<Pfn>(amount, (j: nat) => Field(PhysToPfn(phys) + j))
  }

  lemma FieldOfWrapped(q: nat)
    ensures Field(q % 0x10_0000_0000_0000) == Field(q)
  {}

  lemma NextFrame(cursor: Addr, phys: Addr, i: nat)
    requires cursor == (phys + i * PAGE_SIZE) % ADDR_LIMIT
    ensures Field(PhysToPfn(cursor)) == Field(PhysToPfn(phys) + i)
    ensures Next(cursor) == (phys + (i + 1) * PAGE_SIZE) % ADDR_LIMIT
  {
    var q := PhysToPfn(phys) + i;
    assert (phys + i * PAGE_SIZE) / PAGE_SIZE == q;
    WrappedPage(phys + i * PAGE_SIZE);
    FieldOfWrapped(q);
    NextPage(cursor, phys, i);
  }
}
