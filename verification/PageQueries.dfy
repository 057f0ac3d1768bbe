/** Range queries and flag changes on a page table (include/kernel/mem/paging.h), against its flat map. */
module PageQueries {
  import opened Common
  import opened PageTree
  import opened PageAddr
  import opened FrameLedger
  import opened TableState
  import opened FlatSpec
  import opened PageTables

  /** The table is as it was. */
  twostate predicate Untouched(t: PageTable)
    reads t
  {
    t.mem == old(t.mem) && t.pool == old(t.pool) && t.taken == old(t.taken) && t.tree == old(t.tree)
    && t.refusals == old(t.refusals)
  }

  /** One page looked up without creating levels: its table, if there is one, and the entry there. */
  method Look(t: PageTable, c0: Cache, addr: Addr, ghost start: Addr, ghost i: nat)
    returns (found: bool, c: Cache, e: Entry)
    requires t.Valid() && Coherent(t.mem, t.pml4, c0) && addr == (start + i * PAGE_SIZE) % ADDR_LIMIT
    modifies t`mem, t`pool, t`taken, t`refusals, t`tree
    ensures t.Valid() && Coherent(t.mem, t.pml4, c)
    ensures Untouched(t)
    ensures var v := PageAt(start, i);
      && v in t.View() && e == t.View()[v]
      && Resolve(t.mem, t.pml4, LeafNode(v)) == (if found then Some(c.pml1) else None)
      && (found ==> c.entry == v % INDEX_AMOUNT) && (!found ==> e == ZERO)
  {
    hide Coherent, Logged, WellFormed, PageOf, LeafNode, Flat, Honest;
    ghost var v := PageOf(addr);
    NextPage(addr, start, i);
    FlatTotal(t.mem, t.pml4);
    AbsentIsZero(t.mem, t.pml4, v);
    found, c := t.Traverse(c0, addr, NONE);
    if found { e := t.ReadEntry(c, v); } else { e := ZERO; }
  }

  lemma PageStart(addr: Addr)
    ensures PageAt(addr - addr % PAGE_SIZE, 0) == PageOf(addr)
  {}

  /** page_table_get_phys_addr. */
  method GetPhysAddr(t: PageTable, addr: Addr) returns (r: Option<nat>)
    requires t.Valid()
    modifies t`mem, t`pool, t`taken, t`refusals, t`tree
    ensures t.Valid() && Untouched(t)
    ensures Total(t.View()) && r == Translate(t.View(), addr)
  {
    hide Coherent, Logged, Sound, Flat, PageAt, PageOf, Honest;
    CreateCoherent(t.mem, t.pml4);
    FlatTotal(t.mem, t.pml4);
    PageStart(addr);
    var down := addr - addr % PAGE_SIZE;
    var found, c, e := Look(t, CACHE_CREATE, down, down, 0);
    if !found || !e.Present() { return None; }
    return Some(e.pfn * PAGE_SIZE + addr % PAGE_SIZE);
  }

  /** page_table_is_mapped. */
  method IsMapped(t: PageTable, addr: Addr, amount: nat) returns (r: bool)
    requires t.Valid()
    modifies t`mem, t`pool, t`taken, t`refusals, t`tree
    ensures t.Valid() && Untouched(t)
    ensures Total(t.View()) && (r <==> forall i :: 0 <= i < amount ==> t.View()[PageAt(addr, i)].Present())
  {
    hide Coherent, Logged, Sound, Flat, PageAt, Resolve, LeafNode, Honest;
    CreateCoherent(t.mem, t.pml4);
    FlatTotal(t.mem, t.pml4);
    var traverse := CACHE_CREATE;
    for i := 0 to amount
      invariant t.Valid() && Coherent(t.mem, t.pml4, traverse)
      invariant Untouched(t)
      invariant forall j :: 0 <= j < i ==> t.View()[PageAt(addr, j)].Present()
    {
      var found, c, e := Look(t, traverse, (addr + i * PAGE_SIZE) % ADDR_LIMIT, addr, i);
      traverse := c;
      if !found || !e.Present() { return false; }
    }
    return true;
  }

  /** page_table_is_unmapped. */
  method IsUnmapped(t: PageTable, addr: Addr, amount: nat) returns (r: bool)
    requires t.Valid()
    modifies t`mem, t`pool, t`taken, t`refusals, t`tree
    ensures t.Valid() && Untouched(t)
    ensures Total(t.View()) && (r <==> forall i :: 0 <= i < amount ==> !t.View()[PageAt(addr, i)].Present())
  {
    hide Coherent, Logged, Sound, Flat, PageAt, Resolve, LeafNode, Honest;
    CreateCoherent(t.mem, t.pml4);
    FlatTotal(t.mem, t.pml4);
    var traverse := CACHE_CREATE;
    for i := 0 to amount
      invariant t.Valid() && Coherent(t.mem, t.pml4, traverse)
      invariant Untouched(t)
      invariant forall j :: 0 <= j < i ==> !t.View()[PageAt(addr, j)].Present()
    {
      var found, c, e := Look(t, traverse, (addr + i * PAGE_SIZE) % ADDR_LIMIT, addr, i);
      traverse := c;
      if found && e.Present() { return false; }
    }
    return true;
  }

  // ---- callbacks --------------------------------------------------------------------------------------

  function CallbackOf(e: Entry): nat { e.lowCallbackId + 2 * e.highCallbackId }

  /** The id written by a mapping is read back. */
  lemma CallbackRoundTrip(flags: Flags, pfn: Pfn, callbackId: nat)
    ensures CallbackOf(MapEntry(flags, pfn, callbackId)) == callbackId
  {}

  ghost function Occurrences(f: FlatMap, addr: Addr, n: nat, id: nat): nat
    requires Total(f)
  {
    if n == 0 then 0
    else
      var e := f[PageAt(addr, n - 1)];
      Occurrences(f, addr, n - 1, id) + (if e.Present() && CallbackOf(e) == id then 1 else 0)
  }

  lemma OccurrencesNone(f: FlatMap, addr: Addr)
    requires Total(f)
    ensures forall id: nat :: Occurrences(f, addr, 0, id) == 0
  {}

  lemma OccurrencesOne(f: FlatMap, addr: Addr, n: nat, e: Entry)
    requires Total(f) && e == f[PageAt(addr, n)]
    ensures forall id: nat ::
      Occurrences(f, addr, n + 1, id) == Occurrences(f, addr, n, id) + (if e.Present() && CallbackOf(e) == id then 1 else 0)
  {}

  /** page_table_collect_callbacks: adds to each counter the number of mapped pages with that id. */
  method CollectCallbacks(t: PageTable, addr: Addr, amount: nat, callbacks: array<nat>)
    requires t.Valid() && callbacks.Length == CALLBACK_NONE && Total(t.View())
    requires forall v: Vpn :: CallbackOf(t.View()[v]) <= CALLBACK_NONE
    modifies t`mem, t`pool, t`taken, t`refusals, t`tree, callbacks
    ensures t.Valid() && Untouched(t)
    ensures forall id :: 0 <= id < CALLBACK_NONE ==>
      callbacks[id] == old(callbacks[id]) + Occurrences(old(t.View()), addr, amount, id)
  {
    hide Coherent, Logged, WellFormed, Flat, PageAt, Occurrences, CallbackOf, Honest;
    CreateCoherent(t.mem, t.pml4);
    OccurrencesNone(t.View(), addr);
    var traverse := CACHE_CREATE;
    for i := 0 to amount
      invariant t.Valid() && Coherent(t.mem, t.pml4, traverse)
      invariant Untouched(t)
      invariant forall id :: 0 <= id < CALLBACK_NONE ==>
        callbacks[id] == old(callbacks[id]) + Occurrences(old(t.View()), addr, i, id)
    {
      var found, c, e := Look(t, traverse, (addr + i * PAGE_SIZE) % ADDR_LIMIT, addr, i);
      traverse := c;
      OccurrencesOne(old(t.View()), addr, i, e);
      if found && e.Present() {
        var callbackId := CallbackOf(e);
        if callbackId != CALLBACK_NONE { callbacks[callbackId] := callbacks[callbackId] + 1; }
      }
    }
  }

  // ---- flags ------------------------------------------------------------------------------------------

  function WithOwned(flags: Flags, owned: bool): Flags { flags.(owned := owned) }

  /** The owned flag in effect after the first n pages of the range: once met, it stays. */
  ghost predicate Carried(f: FlatMap, addr: Addr, n: nat, flags: Flags)
    requires Total(f)
  {
    flags.owned || exists j: nat :: j < n && f[PageAt(addr, j)].Present() && f[PageAt(addr, j)].Owned()
  }

  ghost function SetEntry(e: Entry, flags: Flags, owned: bool): Entry {
    if e.Present() then e.(flags := WithOwned(flags, owned)) else e
  }

  ghost function SetRange(f: FlatMap, addr: Addr, n: nat, flags: Flags): FlatMap
    requires Total(f)
  {
    imap v: Vpn :: if Offset(addr, v) < n then SetEntry(f[v], flags, Carried(f, addr, Offset(addr, v) + 1, flags)) else f[v]
  }

  lemma SetNone(f: FlatMap, addr: Addr, flags: Flags)
    requires Total(f)
    ensures SetRange(f, addr, 0, flags) == f && (Carried(f, addr, 0, flags) <==> flags.owned)
  {}

  lemma SetOne(f: FlatMap, addr: Addr, n: nat, flags: Flags)
    requires Total(f) && n < PAGE_LIMIT
    ensures var v, g := PageAt(addr, n), SetRange(f, addr, n, flags);
      && g[v] == f[v]
      && g[v := SetEntry(f[v], flags, Carried(f, addr, n + 1, flags))] == SetRange(f, addr, n + 1, flags)
      && (Carried(f, addr, n + 1, flags) <==> Carried(f, addr, n, flags) || (f[v].Present() && f[v].Owned()))
  {
    hide Offset, PageAt, Carried;
    PageOnce(addr, n);
    OffsetPageAt(addr, n);
    CarriedOne(f, addr, n, flags);
  }

  lemma CarriedOne(f: FlatMap, addr: Addr, n: nat, flags: Flags)
    requires Total(f)
    ensures Carried(f, addr, n + 1, flags) <==>
      Carried(f, addr, n, flags) || (f[PageAt(addr, n)].Present() && f[PageAt(addr, n)].Owned())
  {}

  /** Pages the range can get through: mapped, or without a table. */
  ghost predicate Passable(t: PageTable, v: Vpn)
    reads t
  {
    Resolve(t.mem, t.pml4, LeafNode(v)).None? || (v in t.View() && t.View()[v].Present())
  }

  /** After n pages: what the map has become, and the flags for the next page. */
  ghost predicate Progress(f: FlatMap, g: FlatMap, addr: Addr, n: nat, flags: Flags, current: Flags) {
    Total(f) && g == SetRange(f, addr, n, flags) && current == WithOwned(flags, Carried(f, addr, n, flags))
  }

  lemma ProgressNone(f: FlatMap, addr: Addr, flags: Flags)
    requires Total(f)
    ensures Progress(f, f, addr, 0, flags, flags)
  {
    assert WithOwned(flags, flags.owned) == flags;
    SetNone(f, addr, flags);
  }

  lemma ProgressOne(f: FlatMap, g: FlatMap, addr: Addr, n: nat, flags: Flags, current: Flags, v: Vpn)
    requires Progress(f, g, addr, n, flags, current) && n < PAGE_LIMIT && v == PageAt(addr, n) && v in g
    ensures g[v] == f[v]
    ensures !g[v].Present() ==> Progress(f, g, addr, n + 1, flags, current)
    ensures g[v].Present() ==>
      var next := if g[v].Owned() then WithOwned(current, true) else current;
      Progress(f, g[v := g[v].(flags := next)], addr, n + 1, flags, next)
  {
    hide PageAt, SetRange, Carried, SetEntry, WithOwned;
    SetOne(f, addr, n, flags);
    var c, c' := Carried(f, addr, n, flags), Carried(f, addr, n + 1, flags);
    SetEntryIs(g[v], flags, c, c');
    if !g[v].Present() { assert g[v := g[v]] == g; }
  }

  lemma SetEntryIs(e: Entry, flags: Flags, c: bool, c': bool)
    requires c' <==> c || (e.Present() && e.Owned())
    ensures !e.Present() ==> SetEntry(e, flags, c') == e && WithOwned(flags, c') == WithOwned(flags, c)
    ensures e.Present() ==>
      && SetEntry(e, flags, c') == e.(flags := WithOwned(flags, c'))
      && WithOwned(flags, c') == if e.Owned() then WithOwned(WithOwned(flags, c), true) else WithOwned(flags, c)
  {
    hide WithOwned;
    OwnedTwice(flags, c);
  }

  lemma OwnedTwice(flags: Flags, c: bool)
    ensures WithOwned(WithOwned(flags, c), true) == WithOwned(flags, true)
  {}

  lemma ProgressIs(f: FlatMap, g: FlatMap, addr: Addr, n: nat, flags: Flags, current: Flags)
    requires Progress(f, g, addr, n, flags, current)
    ensures Total(f) && g == SetRange(f, addr, n, flags)
  {}

  /** One page: skipped without a table, a stop without a mapping, otherwise its flags are replaced. */
  method SetPage(t: PageTable, c0: Cache, addr: Addr, i: nat, ghost flags: Flags, current: Flags, ghost f: FlatMap)
    returns (ok: bool, c: Cache, next: Flags)
    requires t.Valid() && Coherent(t.mem, t.pml4, c0) && Progress(f, t.View(), addr, i, flags, current) && i < PAGE_LIMIT
    modifies t`mem, t`pool, t`taken, t`refusals, t`tree
    ensures t.Valid() && Coherent(t.mem, t.pml4, c) && t.pool == old(t.pool) && t.taken == old(t.taken)
    ensures t.tree == old(t.tree) && t.refusals == old(t.refusals) && Total(f)
    ensures ok <==> old(Resolve(t.mem, t.pml4, LeafNode(PageAt(addr, i)))).None? || f[PageAt(addr, i)].Present()
    ensures Progress(f, t.View(), addr, if ok then i + 1 else i, flags, next)
  {
    hide Coherent, Logged, Sound, Flat, PageAt, SetRange, Progress, Resolve, LeafNode, Honest, WithOwned;
    ghost var v := PageAt(addr, i);
    var found, e;
    found, c, e := Look(t, c0, (addr + i * PAGE_SIZE) % ADDR_LIMIT, addr, i);
    ProgressOne(f, t.View(), addr, i, flags, current, v);
    ProgressIs(f, t.View(), addr, i, flags, current);
    next := current;
    ok := !found || e.Present();
    if found && ok {
      if e.Owned() { next := WithOwned(next, true); }
      t.WriteEntry(c, v, e.(flags := next));
    }
  }

  /** page_table_set_flags on pages met once each. */
  method SetFlags(t: PageTable, addr: Addr, amount: nat, flags: Flags) returns (ok: bool, done: nat)
    requires t.Valid() && amount <= PAGE_LIMIT
    modifies t`mem, t`pool, t`taken, t`refusals, t`tree
    ensures t.Valid() && t.pool == old(t.pool) && t.taken == old(t.taken) && t.tree == old(t.tree)
    ensures t.refusals == old(t.refusals)
    ensures Total(old(t.View())) && done <= amount && t.View() == SetRange(old(t.View()), addr, done, flags)
    ensures ok <==> done == amount
    ensures old(t.Accounts()) ==> (t.Accounts() <==> KeepsOwned(old(t.View()), addr, done, flags))
    ensures (forall i :: 0 <= i < done ==> old(Passable(t, PageAt(addr, i))))
    ensures (!ok ==> !old(Passable(t, PageAt(addr, done))))
  {
    hide Coherent, Logged, Sound, Flat, PageAt, SetRange, Progress, Resolve, LeafNode, Accounted, KeepsOwned, Honest;
    CreateCoherent(t.mem, t.pml4);
    FlatTotal(t.mem, t.pml4);
    ghost var f := t.View();
    ProgressNone(f, addr, flags);
    var traverse, current := CACHE_CREATE, flags;
    done := 0;
    ok := true;
    while done < amount && ok
      invariant done <= amount && t.Valid() && Coherent(t.mem, t.pml4, traverse)
      invariant t.pool == old(t.pool) && t.taken == old(t.taken) && t.tree == old(t.tree) && t.refusals == old(t.refusals)
      invariant Progress(f, t.View(), addr, done, flags, current)
      invariant forall i :: 0 <= i < done ==> old(Passable(t, PageAt(addr, i)))
      invariant !ok ==> done < amount && !old(Passable(t, PageAt(addr, done)))
      decreases amount - done, ok
    {
      SameTables(old(t.mem), t.mem, t.pml4, old(t.pool), t.pool, t.tree, PageAt(addr, done));
      ok, traverse, current := SetPage(t, traverse, addr, done, flags, current, f);
      if ok { done := done + 1; }
    }
    ProgressIs(f, t.View(), addr, done, flags, current);
    if old(t.Accounts()) { AccountsKeptExactly(f, t.tree.place.Keys, t.pool, t.ledger, addr, done, flags); }
  }

  /** Tables with the same tree resolve alike. */
  lemma SameTables(mem: Memory, mem': Memory, root: Pfn, pool: set<Pfn>, pool': set<Pfn>, t: Tree, v: Vpn)
    requires Sound(mem, root, pool, t) && Sound(mem', root, pool', t)
    ensures Resolve(mem, root, LeafNode(v)) == Resolve(mem', root, LeafNode(v))
  {
    hide Resolve, LeafNode;
    ResolveIsShape(mem, root, t.shape, t.place, LeafNode(v));
    ResolveIsShape(mem', root, t.shape, t.place, LeafNode(v));
  }

  /** With the flag requested all mapped pages of the range have it, and without, none that lacks it comes after one
      that has it. */
  ghost predicate KeepsOwned(f: FlatMap, addr: Addr, n: nat, flags: Flags)
    requires Total(f)
  {
    forall i: nat :: i < n && f[PageAt(addr, i)].Present() && !f[PageAt(addr, i)].Owned() ==>
      !flags.owned && forall j: nat :: j < i ==> !(f[PageAt(addr, j)].Present() && f[PageAt(addr, j)].Owned())
  }

  /** That is just when each mapped page of the range keeps its owned flag. */
  lemma OwnedKeptExactly(f: FlatMap, addr: Addr, n: nat, flags: Flags)
    requires Total(f) && n <= PAGE_LIMIT
    ensures (forall i: nat :: i < n && f[PageAt(addr, i)].Present() ==>
        SetRange(f, addr, n, flags)[PageAt(addr, i)].Owned() == f[PageAt(addr, i)].Owned())
      <==> KeepsOwned(f, addr, n, flags)
  {
    hide Offset, PageAt;
    forall i: nat | i < n && f[PageAt(addr, i)].Present()
      ensures SetRange(f, addr, n, flags)[PageAt(addr, i)].Owned() <==> Carried(f, addr, i + 1, flags)
    {
      OffsetPageAt(addr, i);
    }
    forall i: nat | i < n && f[PageAt(addr, i)].Present() && f[PageAt(addr, i)].Owned()
      ensures Carried(f, addr, i + 1, flags)
    {}
  }

  /** And just when the frames are still accounted for: a page that gains the flag claims a frame that is not its
      own. */
  lemma AccountsKeptExactly(f: FlatMap, levels: set<Pfn>, pool: set<Pfn>, l: Ledger, addr: Addr, n: nat, flags: Flags)
    requires Accounted(f, levels, pool, l) && Total(f) && n <= PAGE_LIMIT
    ensures Accounted(SetRange(f, addr, n, flags), levels, pool, l) <==> KeepsOwned(f, addr, n, flags)
  {
    hide Offset, PageAt, KeepsOwned, Carried;
    OwnedKeptExactly(f, addr, n, flags);
    var g := SetRange(f, addr, n, flags);
    forall v: Vpn ensures g[v].pfn == f[v].pfn && (!f[v].Present() ==> g[v] == f[v]) {}
    if KeepsOwned(f, addr, n, flags) {
      forall v: Vpn ensures g[v].Owned() == f[v].Owned() {
        PageAtOffset(addr, v);
        if Offset(addr, v) < n && f[v].Present() { assert f[PageAt(addr, Offset(addr, v))].Present(); }
      }
    } else {
      var i: nat :| i < n && f[PageAt(addr, i)].Present() && g[PageAt(addr, i)].Owned() != f[PageAt(addr, i)].Owned();
      assert !Owning(g, l.owners);
    }
  }

  /** A page with its own frame and a shared one next to it. */
  method OwnedAndShared(frames: set<Pfn>, own: Pfn, shared: Pfn, flags: Flags) returns (t: PageTable)
    requires |frames| > 4 && own !in frames && flags.present && !flags.owned
    ensures fresh(t) && t.Valid() && t.Accounts() && Total(t.View())
    ensures t.View()[0] == MapEntry(flags.(owned := true), own, CALLBACK_NONE)
    ensures t.View()[1] == MapEntry(flags, shared, CALLBACK_NONE)
  {
    hide Flat, Sound, Logged, Accounted, MappedPrefix, Blank, Grew, MapEntry, Extends, Honest, PageAt, LeafNode;
    ghost var f0;
    t, f0 := OwnPage(frames, own, flags.(owned := true));
    ghost var f1, l1, t1, pool1 := t.View(), t.ledger, t.tree, t.pool;
    var ok; ghost var done;
    ok, done := t.Map(PAGE_SIZE, shared * PAGE_SIZE, 1, flags, CALLBACK_NONE);
    SecondMapped(f0, f1, l1, t.View(), t.ledger, shared, done, flags, MapEntry(flags.(owned := true), own, CALLBACK_NONE));
    GrewStays(t1, pool1, t.tree, t.pool, PAGE_SIZE, if ok then done else done + 1, done, LeafNode(PageAt(0, 0)));
    SameLeaf();
  }

  lemma GrewStays(t0: Tree, pool0: set<Pfn>, t: Tree, pool: set<Pfn>, addr: Addr, tried: nat, done: nat, n: Node)
    requires Grew(t0, pool0, t, pool, addr, tried, done) && n in t0.shape
    ensures n in t.shape
  {
    hide OnPaths, LeafNode, PageAt;
  }

  lemma SameLeaf()
    ensures LeafNode(PageAt(PAGE_SIZE, 0)) == LeafNode(PageAt(0, 0))
  {}

  /** Setting the flags of both anew makes the second page an owner too. */
  method GainsOwned(frames: set<Pfn>, own: Pfn, shared: Pfn, flags: Flags) returns (t: PageTable, ghost f: FlatMap)
    requires |frames| > 4 && own !in frames && flags.present && !flags.owned
    ensures fresh(t) && Total(f) && f[0].Owned() && !f[1].Owned() && f[1].pfn == shared
    ensures t.View() == SetRange(f, 0, 2, flags) && t.View()[1].Owned() && t.View()[1].pfn == shared && !t.Accounts()
  {
    hide Flat, Sound, Logged, Accounted, SetRange, KeepsOwned, PageAt, Resolve, LeafNode, Honest;
    t := OwnedAndShared(frames, own, shared, flags);
    f := t.View();
    FirstPages();
    assert Passable(t, 0) && Passable(t, 1);
    var ok, done := SetFlags(t, 0, 2, flags);
    FlatTotal(t.mem, t.pml4);
    BothSet(f, flags);
  }

  lemma FirstPages()
    ensures PageAt(0, 0) == 0 && PageAt(0, 1) == 1 && Offset(0, 1) == 1
  {}

  lemma SecondPage()
    ensures Offset(PAGE_SIZE, 0) > 0 && Offset(PAGE_SIZE, 1) == 0 && PageAt(PAGE_SIZE, 0) == 1
  {}

  lemma SecondMapped(f0: FlatMap, f1: FlatMap, l1: Ledger, f: FlatMap, l: Ledger, p: Pfn, done: nat, flags: Flags, e: Entry)
    requires Blank(f0) && f1 == f0[0 := e]
    requires MappedPrefix(f1, l1, f, l, PAGE_SIZE, FramesFrom(p * PAGE_SIZE, 1), done, flags, CALLBACK_NONE)
    ensures Total(f) && done <= 1 && (done == 1 ==> f[0] == e && f[1] == MapEntry(flags, p, CALLBACK_NONE))
    ensures done == 0 ==> !f[PageAt(PAGE_SIZE, 0)].Present()
  {
    hide Offset, PageAt;
    assert Offset(PAGE_SIZE, 0) > 0 && Offset(PAGE_SIZE, 1) == 0 && PageAt(PAGE_SIZE, 0) == 1 by { SecondPage(); }
    FirstFrame(p);
  }

  lemma BothSet(f: FlatMap, flags: Flags)
    requires Total(f) && f[0].Present() && f[0].Owned() && f[1].Present() && !f[1].Owned()
    ensures !KeepsOwned(f, 0, 2, flags)
    ensures SetRange(f, 0, 2, flags)[1].Owned() && SetRange(f, 0, 2, flags)[1].pfn == f[1].pfn
  {
    hide PageAt, Offset;
    FirstPages();
    assert f[PageAt(0, 0)].Present() && f[PageAt(0, 0)].Owned() && f[PageAt(0, 1)].Present();
    assert Carried(f, 0, 2, flags);
  }
}
