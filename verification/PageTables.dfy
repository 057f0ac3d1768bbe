/** The four-level page table of include/kernel/mem/paging.h over a memory of level pages, with the flat map it stands
    for and the frames it owes. */
module PageTables {
  import opened Common
  import opened PageTree
  import opened PageAddr
  import opened FrameLedger
  import opened TableState
  import opened FlatSpec
  import opened Teardown

  datatype Cache = Cache(
    pml3: Pfn, pml2: Pfn, pml1: Pfn, pml3Valid: bool, pml2Valid: bool, pml1Valid: bool,
    oldIdx3: Index, oldIdx2: Index, oldIdx1: Index, entry: Index)

  const CACHE_CREATE := Cache(0, 0, 0, false, false, false, 0, 0, 0, 0)

  /** Node of a cached level, from the stored indexes. */
  function Cached3(c: Cache): Node { L3(c.oldIdx3) }
  function Cached2(c: Cache): Node { L2(c.oldIdx3, c.oldIdx2) }
  function Cached1(c: Cache): Node { L1(c.oldIdx3, c.oldIdx2, c.oldIdx1) }

  /** A set valid flag says the cached page is what a plain walk reaches; it only counts below valid levels. */
  ghost predicate Coherent(mem: Memory, root: Pfn, c: Cache) {
    && (c.pml3Valid ==> Resolve(mem, root, Cached3(c)) == Some(c.pml3))
    && (c.pml3Valid && c.pml2Valid ==> Resolve(mem, root, Cached2(c)) == Some(c.pml2))
    && (c.pml3Valid && c.pml2Valid && c.pml1Valid ==> Resolve(mem, root, Cached1(c)) == Some(c.pml1))
  }

  ghost predicate CoherentIn(shape: map<Node, Pfn>, c: Cache) {
    && (c.pml3Valid ==> Lookup(shape, Cached3(c)) == Some(c.pml3))
    && (c.pml3Valid && c.pml2Valid ==> Lookup(shape, Cached2(c)) == Some(c.pml2))
    && (c.pml3Valid && c.pml2Valid && c.pml1Valid ==> Lookup(shape, Cached1(c)) == Some(c.pml1))
  }

  /** Each valid flag taken on its own. */
  ghost predicate CoherentEach(mem: Memory, root: Pfn, c: Cache) {
    && (c.pml3Valid ==> Resolve(mem, root, Cached3(c)) == Some(c.pml3))
    && (c.pml2Valid ==> Resolve(mem, root, Cached2(c)) == Some(c.pml2))
    && (c.pml1Valid ==> Resolve(mem, root, Cached1(c)) == Some(c.pml1))
  }

  ghost predicate CoherentEachIn(shape: map<Node, Pfn>, c: Cache) {
    && (c.pml3Valid ==> Lookup(shape, Cached3(c)) == Some(c.pml3))
    && (c.pml2Valid ==> Lookup(shape, Cached2(c)) == Some(c.pml2))
    && (c.pml1Valid ==> Lookup(shape, Cached1(c)) == Some(c.pml1))
  }

  /** A walk to i4, i3 ends with the table of i4, and the cache knew a lowest table under another index. */
  ghost predicate LeftBehind(shape: map<Node, Pfn>, c: Cache, i4: Index, i3: Index) {
    L3(i4) in shape && L2(i4, i3) !in shape && c.oldIdx3 != i4 && c.pml1Valid
  }

  /** The walk stopped at the second level: the top of the cache has moved on, and the bottom has not. */
  lemma StoppedEach(mem: Memory, root: Pfn, pool: set<Pfn>, t: Tree, c0: Cache, c: Cache, i4: Index, i3: Index)
    requires Sound(mem, root, pool, t) && CoherentEachIn(t.shape, c0) && CoherentIn(t.shape, c)
    requires Lookup(t.shape, L3(i4)) == Some(c.pml3) && L2(i4, i3) !in t.shape && (c.pml2Valid ==> c.pml3Valid)
    requires c == c0.(pml3 := c.pml3, oldIdx3 := i4, pml2Valid := c.pml2Valid)
    ensures CoherentEachIn(t.shape, c) <==> !LeftBehind(t.shape, c0, i4, i3)
  {
    PlaceOf(mem, root, pool, t, Cached1(c));
    PlaceOf(mem, root, pool, t, Cached1(c0));
  }

  /** The walk got past the second level: what is still marked valid was just met. */
  lemma PassedEach(shape: map<Node, Pfn>, c2: Cache, c: Cache, i4: Index, i3: Index, ok: bool, i2: Index)
    requires CoherentIn(shape, c2) && c2.oldIdx3 == i4 && c2.oldIdx2 == i3
    requires (c2.pml1Valid ==> c2.pml3Valid && c2.pml2Valid)
    requires Lookup(shape, L3(i4)) == Some(c2.pml3) && Lookup(shape, L2(i4, i3)) == Some(c2.pml2)
    requires if ok then c == c2.(pml1 := c.pml1, oldIdx1 := i2) && Lookup(shape, L1(i4, i3, i2)) == Some(c.pml1) else c == c2
    ensures CoherentEachIn(shape, c)
  {}

  lemma NotBehind(shape: map<Node, Pfn>, c: Cache, i4: Index, i3: Index)
    requires L3(i4) !in shape || L2(i4, i3) in shape
    ensures !LeftBehind(shape, c, i4, i3)
  {}

  lemma CoherentEachShape(mem: Memory, root: Pfn, pool: set<Pfn>, t: Tree, c: Cache)
    requires Sound(mem, root, pool, t)
    ensures CoherentEach(mem, root, c) <==> CoherentEachIn(t.shape, c)
  {
    ResolveIsShape(mem, root, t.shape, t.place, Cached3(c));
    ResolveIsShape(mem, root, t.shape, t.place, Cached2(c));
    ResolveIsShape(mem, root, t.shape, t.place, Cached1(c));
  }

  lemma CoherentShape(mem: Memory, root: Pfn, pool: set<Pfn>, t: Tree, c: Cache)
    requires Sound(mem, root, pool, t)
    ensures Coherent(mem, root, c) <==> CoherentIn(t.shape, c)
  {
    ResolveIsShape(mem, root, t.shape, t.place, Cached3(c));
    ResolveIsShape(mem, root, t.shape, t.place, Cached2(c));
    ResolveIsShape(mem, root, t.shape, t.place, Cached1(c));
  }

  lemma PlaceOf(mem: Memory, root: Pfn, pool: set<Pfn>, t: Tree, n: Node)
    requires Sound(mem, root, pool, t)
    ensures Lookup(t.shape, L4) == Some(root)
    ensures n in t.shape ==> t.shape[n] in t.place && t.place[t.shape[n]] == n
  {}

  lemma BelowMissing(mem: Memory, root: Pfn, pool: set<Pfn>, t: Tree, i4: Index, i3: Index, i2: Index)
    requires Sound(mem, root, pool, t) && (L3(i4) !in t.shape || L2(i4, i3) !in t.shape)
    ensures L1(i4, i3, i2) !in t.shape
  {
    var n := L1(i4, i3, i2);
    assert n in t.shape ==> n.Parent() in t.shape && n.Parent().Parent() in t.shape;
  }

  lemma CoherentExtends(t: Tree, pool: set<Pfn>, t': Tree, pool': set<Pfn>, c: Cache)
    requires Extends(t, pool, t', pool') && CoherentIn(t.shape, c)
    ensures CoherentIn(t'.shape, c)
  {}

  lemma EachExtends(t: Tree, pool: set<Pfn>, t': Tree, pool': set<Pfn>, c: Cache)
    requires Extends(t, pool, t', pool') && CoherentEachIn(t.shape, c)
    ensures CoherentEachIn(t'.shape, c)
  {}

  lemma EachCoherent(shape: map<Node, Pfn>, c: Cache)
    requires CoherentEachIn(shape, c)
    ensures CoherentIn(shape, c)
  {}

  lemma TopCached(shape: map<Node, Pfn>, c: Cache)
    requires CoherentIn(shape, c)
    ensures c.pml3Valid ==> Lookup(shape, L3(c.oldIdx3)) == Some(c.pml3)
  {}

  lemma NewTop(shape: map<Node, Pfn>, c: Cache, p: Pfn, i4: Index)
    requires Lookup(shape, L3(i4)) == Some(p)
    ensures CoherentIn(shape, c.(pml3 := p, oldIdx3 := i4, pml2Valid := false))
  {}

  lemma LookupExtends(t: Tree, pool: set<Pfn>, t': Tree, pool': set<Pfn>, n: Node)
    requires Extends(t, pool, t', pool') && n in t.shape
    ensures Lookup(t'.shape, n) == Some(t.shape[n])
  {}

  /** Flags of the levels created on the way: everything is granted, and nothing is global at the root. */
  function UpperFlags(f: Flags, level: nat): Flags {
    f.(write := true, user := true, global := f.global && level != 4)
  }

  /** What the entry of a new level grants, next to the flags asked for. */
  predicate Grants(made: Flags, asked: Flags, top: bool) {
    && made.write && made.user && made.global == (asked.global && !top)
    && made.present == asked.present && made.writeThrough == asked.writeThrough && made.cacheDisabled == asked.cacheDisabled
    && made.accessed == asked.accessed && made.dirty == asked.dirty && made.size == asked.size
    && made.owned == asked.owned && made.noExecute == asked.noExecute
  }

  lemma CreateCoherent(mem: Memory, root: Pfn)
    ensures Coherent(mem, root, CACHE_CREATE)
  {}

  lemma FlatTotal(mem: Memory, root: Pfn)
    ensures Total(Flat(mem, root))
  {}

  lemma GrownAccounts(mem: Memory, root: Pfn, t: Tree, pool: set<Pfn>, t': Tree, pool': set<Pfn>, l: Ledger)
    requires Accounted(Flat(mem, root), t.place.Keys, pool, l) && Extends(t, pool, t', pool') && Sound(mem, root, pool', t')
    ensures Accounted(Flat(mem, root), t'.place.Keys, pool', l)
  {
    hide Accounted, Flat, WellFormed;
    AccountGrow(Flat(mem, root), t.place.Keys, pool, t'.place.Keys, pool', l);
  }

  lemma ClearedSame(f: FlatMap, v: Vpn)
    requires Total(f)
    ensures f[v].Present() || f[v] == ZERO ==> f[v := Cleared(f[v])] == f
    ensures f[v].Present() || f[v] == ZERO ==> (if f[v].Present() then {} else OwnedFrame(f[v])) == {}
    ensures !f[v].Present() ==> Cleared(f[v]) == ZERO
  {}

  lemma StillNew(f0: FlatMap, l0: Ledger, f: FlatMap, l: Ledger,
      addr: Addr, frames: seq<Pfn>, n: nat, flags: Flags, callbackId: nat)
    requires MappedPrefix(f0, l0, f, l, addr, frames, n, flags, callbackId) && n < |frames|
    requires flags.owned ==> Handover(frames, l0.total)
    ensures flags.owned ==> frames[n] !in l.total
  {}

  /** The levels a walk to a lowest-level table passes below the root. */
  function PathTo(n: Node): set<Node>
    requires n.L1?
  {
    {L3(n.i4), L2(n.i4, n.i3), n}
  }

  /** Every new level is on the way to one of the first n pages of the range. */
  ghost predicate OnPaths(shape: map<Node, Pfn>, shape': map<Node, Pfn>, addr: Addr, n: nat) {
    forall m :: m in shape' && m !in shape ==> exists v: Vpn :: Offset(addr, v) < n && m in PathTo(LeafNode(v))
  }

  /** The levels after a number of pages were tried and done of them got through: those from before, those of the
      pages done, and others on the way to the pages tried. */
  ghost predicate Grew(t: Tree, pool: set<Pfn>, t': Tree, pool': set<Pfn>, addr: Addr, tried: nat, done: nat) {
    && OnPaths(t.shape, t'.shape, addr, tried) && Extends(t, pool, t', pool')
    && (forall i: nat :: i < done ==> LeafNode(PageAt(addr, i)) in t'.shape)
  }

  lemma GrewNone(t: Tree, pool: set<Pfn>, addr: Addr)
    ensures Grew(t, pool, t, pool, addr, 0, 0) && Grew(t, pool, t, pool, addr, 1, 0)
  {}

  lemma GrewOne(t0: Tree, pool0: set<Pfn>, t1: Tree, pool1: set<Pfn>, t2: Tree, pool2: set<Pfn>, addr: Addr, i: nat)
    requires Grew(t0, pool0, t1, pool1, addr, i, i) && Extends(t1, pool1, t2, pool2)
    requires t2.shape.Keys <= t1.shape.Keys + PathTo(LeafNode(PageAt(addr, i)))
    ensures Grew(t0, pool0, t2, pool2, addr, i + 1, i)
    ensures LeafNode(PageAt(addr, i)) in t2.shape ==> Grew(t0, pool0, t2, pool2, addr, i + 1, i + 1)
  {
    hide LeafNode, PathTo, PageAt, OnPaths;
    ExtendsTrans(t0, pool0, t1, pool1, t2, pool2);
    PathsOne(t0.shape, t1.shape, t2.shape, addr, i);
  }

  lemma PathsOne(shape0: map<Node, Pfn>, shape1: map<Node, Pfn>, shape2: map<Node, Pfn>, addr: Addr, i: nat)
    requires OnPaths(shape0, shape1, addr, i)
    requires shape2.Keys <= shape1.Keys + PathTo(LeafNode(PageAt(addr, i)))
    ensures OnPaths(shape0, shape2, addr, i + 1)
  {
    hide LeafNode, PathTo;
    var v := PageAt(addr, i);
    OffsetBound(addr, v);
    if i < PAGE_LIMIT { OffsetPageAt(addr, i); }
  }

  lemma AbsentIsZero(mem: Memory, root: Pfn, v: Vpn)
    ensures Resolve(mem, root, LeafNode(v)).None? ==> Flat(mem, root)[v] == ZERO
  {}

  ghost function RootTree(root: Pfn): Tree { Tree(map[L4 := root], map[root := L4]) }

  /** A table holding just a zeroed root page. */
  lemma FreshSound(root: Pfn, pool: set<Pfn>)
    requires root !in pool
    ensures Sound(map[root := EmptyPml()], root, pool, RootTree(root))
    ensures Blank(Flat(map[root := EmptyPml()], root))
  {
    var mem, t := map[root := EmptyPml()], RootTree(root);
    assert Linked(mem, t.shape, L4);
    forall v: Vpn ensures Leaf(mem, root, v) == ZERO {
      ResolveIsShape(mem, root, t.shape, t.place, LeafNode(v));
    }
  }

  lemma NothingTaken(frames: set<Pfn>)
    ensures Logged(multiset{}, multiset{}, frames - frames) && Honest(true, []) && Honest(false, [])
  {
    assert frames - frames == {};
  }

  lemma FreshTable(mem: Memory, root: Pfn, pool: set<Pfn>, frames: set<Pfn>)
    requires root in frames && pool == frames - {root} && mem == map[][root := EmptyPml()]
    ensures Sound(mem, root, pool, RootTree(root)) && pool <= frames
    ensures Accounted(Flat(mem, root), RootTree(root).place.Keys, pool, Ledger(map[], {}, {}, frames))
    ensures Blank(Flat(mem, root)) && RootTree(root).shape.Keys == {L4} && RootTree(root).place.Keys + pool == frames
  {
    hide Accounted, Sound, Flat, Blank, EmptyPml;
    assert mem == map[root := EmptyPml()];
    FreshSound(root, frames - {root});
    assert RootTree(root).place.Keys == {root};
    FreshAccounted(Flat(map[root := EmptyPml()], root), root, frames);
  }

  /** Teardown reaches every level and live frame, and misses exactly the stale frames and those lost before. */
  lemma TeardownPlan(s: Snapshot, pool: set<Pfn>, l: Ledger)
    requires WellFormed(s.mem, s.root, s.tree.shape, s.tree.place)
    requires Accounted(Flat(s.mem, s.root), s.tree.place.Keys, pool, l) && l.pending == {} && s.owners == l.owners
    ensures s.Valid() && s.Intact(L4, s.mem) && s.Doomed(L4) <= l.total - pool
    ensures L4 in s.tree.shape && s.tree.shape[L4] == s.root
    ensures s.mem.Keys <= s.Doomed(L4)
    ensures l.total - (pool + s.Doomed(L4)) == l.lost + StaleIn(Flat(s.mem, s.root), 0, PAGE_LIMIT)
  {
    hide Resolve, LeafNode, Linked;
    var f := Flat(s.mem, s.root);
    var stale := StaleIn(f, 0, PAGE_LIMIT);
    forall q | q in l.owners ensures q in stale <==> !s.LiveLeaf(q, L4) {
      assert Offset(0, l.owners[q]) < PAGE_LIMIT;
      if q in stale { var u: Vpn :| f[u].Owned() && !f[u].Present() && f[u].pfn == q; }
    }
    forall q | q in stale ensures q in l.owners {
      var u: Vpn :| f[u].Owned() && !f[u].Present() && f[u].pfn == q;
    }
  }

  /** An allocator that is not stingy refuses only when nothing is free. */
  ghost predicate Honest(stingy: bool, refusals: seq<nat>) {
    !stingy ==> forall i :: 0 <= i < |refusals| ==> refusals[i] == 0
  }

  lemma HonestMore(stingy: bool, refusals: seq<nat>, pool: set<Pfn>)
    requires Honest(stingy, refusals) && (stingy || pool == {})
    ensures Honest(stingy, refusals + [|pool|])
  {}

  lemma HonestLast(stingy: bool, refusals: seq<nat>, pool: set<Pfn>)
    requires Honest(stingy, refusals + [|pool|]) && !stingy
    ensures pool == {}
  {
    assert (refusals + [|pool|])[|refusals|] == |pool|;
  }

  const PAGE_BUFFER_SIZE := 64

  /** page_table_page_buffer_t */
  class PageBuffer {
    const pfns: array<Pfn>
    var amount: nat

    ghost predicate Valid()
      reads this, pfns
    {
      pfns.Length == PAGE_BUFFER_SIZE && amount < PAGE_BUFFER_SIZE && Distinct(pfns[..amount])
    }

    function Contents(): seq<Pfn>
      requires amount <= pfns.Length
      reads this, pfns
    {
      pfns[..amount]
    }

    constructor ()
      ensures Valid() && Contents() == [] && fresh(pfns)
    {
      pfns := new Pfn[PAGE_BUFFER_SIZE](_ => 0);
      amount := 0;
    }
  }

  class PageTable {
    var mem: Memory
    var pml4: Pfn
    var pool: set<Pfn>
    ghost var tree: Tree
    ghost var ledger: Ledger
    ghost var taken: multiset<Pfn>
    ghost var freed: multiset<Pfn>
    ghost var refusals: seq<nat>   // how many frames were free at each refusal
    const stingy: bool             // whether the allocator may refuse although frames are free

    /** The levels form a tree with one parent entry per level page. */
    ghost predicate Valid()
      reads this
    {
      && Sound(mem, pml4, pool, tree) && Honest(stingy, refusals)
      && Logged(taken, freed, ledger.total - pool) && pool <= ledger.total
    }

    ghost function View(): FlatMap
      reads this
    {
      Flat(mem, pml4)
    }

    /** The table's allocPages callback: some free frame, or a refusal. */
    method AllocPage() returns (r: Option<Pfn>)
      requires Logged(taken, freed, ledger.total - pool) && pool <= ledger.total && Honest(stingy, refusals)
      modifies this`pool, this`taken, this`refusals
      ensures Logged(taken, freed, ledger.total - pool) && Honest(stingy, refusals)
      ensures r.None? ==> pool == old(pool) && taken == old(taken) && refusals == old(refusals) + [|pool|]
      ensures r.Some? ==> r.value in old(pool) && pool == old(pool) - {r.value} && refusals == old(refusals)
    {
      var refuse: bool := *;
      if pool == {} || (stingy && refuse) {
        HonestMore(stingy, refusals, pool);
        refusals := refusals + [|pool|];
        return None;
      }
      var p :| p in pool;
      Taken(taken, freed, ledger.total - pool, p);
      pool := pool - {p};
      taken := taken + multiset{p};
      assert ledger.total - pool == (ledger.total - old(pool)) + {p};
      return Some(p);
    }

    method PmlNew() returns (r: Option<Pfn>)
      requires Logged(taken, freed, ledger.total - pool) && pool <= ledger.total && Honest(stingy, refusals)
      modifies this`mem, this`pool, this`taken, this`refusals
      ensures Logged(taken, freed, ledger.total - pool) && Honest(stingy, refusals)
      ensures r.None? ==> mem == old(mem) && pool == old(pool) && taken == old(taken) && refusals == old(refusals) + [|pool|]
      ensures r.Some? ==> r.value in old(pool) && pool == old(pool) - {r.value} && mem == old(mem)[r.value := EmptyPml()]
      ensures r.Some? ==> refusals == old(refusals)
    {
      r := AllocPage();
      if r.Some? { mem := mem[r.value := EmptyPml()]; }
    }

    method GetPml(current: Pfn, index: Index, flags: Flags) returns (r: Option<Pfn>)
      requires Valid() && current in tree.place && !tree.place[current].L1?
      requires flags.present ==> Permissive(tree.place[current].Level(), flags)
      modifies this`mem, this`pool, this`taken, this`refusals, this`tree
      ensures Valid()
      ensures View() == old(View()) && Extends(old(tree), old(pool), tree, pool)
      ensures var c := old(tree.place)[current].Child(index);
        && (r.Some? ==> c in tree.shape && tree.shape[c] == r.value)
        && (r.None? || c in old(tree.shape) ==>
          mem == old(mem) && pool == old(pool) && tree == old(tree) && taken == old(taken))
        && tree.shape.Keys <= old(tree.shape.Keys) + {c}
        && (r.None? ==> c !in tree.shape)
        && refusals == (if r.None? && flags.present then old(refusals) + [|pool|] else old(refusals))
        && (!flags.present ==> (r.Some? <==> c in old(tree.shape)))
        && (r.Some? && c !in old(tree.shape) ==> current in mem && mem[current][index] == Entry(flags, false, 0, r.value, 0))
    {
      hide Flat, WellFormed, Sound, Logged, LevelEntry, Extends, Honest;
      ExtendsSelf(tree, pool);
      LinkedAt(mem, pml4, pool, tree, current, index);
      var entry := mem[current][index];
      if entry.Present() {
        return Some(entry.pfn);
      }
      if flags.present {
        var next := PmlNew();
        if next.None? { return None; }
        GrowSound(old(mem), pml4, old(pool), tree, current, index, flags, next.value);
        mem := mem[current := mem[current][index := LevelEntry(flags, next.value)]];
        tree := GrowTree(tree, current, index, next.value);
        return next;
      }
      return None;
    }

    /** First block of the traversal: the PML3 page, cached or looked up. */
    method Fill3(c0: Cache, i4: Index, flags: Flags) returns (ok: bool, c: Cache)
      requires Valid() && CoherentIn(tree.shape, c0)
      modifies this`mem, this`pool, this`taken, this`refusals, this`tree
      ensures Valid() && View() == old(View()) && Extends(old(tree), old(pool), tree, pool)
      ensures CoherentIn(tree.shape, c)
      ensures !flags.present ==> mem == old(mem) && pool == old(pool) && tree == old(tree) && taken == old(taken)
      ensures refusals == if !ok && flags.present then old(refusals) + [|pool|] else old(refusals)
      ensures tree.shape.Keys <= old(tree.shape.Keys) + {L3(i4)}
      ensures ok && L3(i4) !in old(tree.shape) ==> pml4 in mem && Grants(mem[pml4][i4].flags, flags, true)
      ensures c.pml3Valid == c0.pml3Valid && c.pml1Valid == c0.pml1Valid && (c.pml2Valid ==> c0.pml2Valid)
      ensures Lookup(tree.shape, L3(i4)) == if ok then Some(c.pml3) else None
      ensures ok ==> c.oldIdx3 == i4 && (c.pml2Valid ==> c.pml3Valid)
      ensures c == if ok then c0.(pml3 := c.pml3, oldIdx3 := i4, pml2Valid := c.pml2Valid) else c0
    {
      hide Flat, Logged, Sound, Extends, CoherentIn, Honest;
      ExtendsSelf(tree, pool);
      PlaceOf(mem, pml4, pool, tree, L4);
      TopCached(tree.shape, c0);
      c := c0;
      ok := true;
      if !c.pml3Valid || c.oldIdx3 != i4 {
        var r := GetPml(pml4, i4, UpperFlags(flags, 4));
        CoherentExtends(old(tree), old(pool), tree, pool, c);
        if r.None? { return false, c; }
        NewTop(tree.shape, c, r.value, i4);
        c := c.(pml3 := r.value, oldIdx3 := i4, pml2Valid := false);
      }
    }

    /** Second block: the PML2 page under the cached PML3. */
    method Fill2(c0: Cache, i3: Index, flags: Flags) returns (ok: bool, c: Cache)
      requires Valid() && CoherentIn(tree.shape, c0)
      requires Lookup(tree.shape, Cached3(c0)) == Some(c0.pml3) && (c0.pml2Valid ==> c0.pml3Valid)
      modifies this`mem, this`pool, this`taken, this`refusals, this`tree
      ensures Valid() && View() == old(View()) && Extends(old(tree), old(pool), tree, pool)
      ensures CoherentIn(tree.shape, c)
      ensures !flags.present ==> mem == old(mem) && pool == old(pool) && tree == old(tree) && taken == old(taken)
      ensures refusals == if !ok && flags.present then old(refusals) + [|pool|] else old(refusals)
      ensures tree.shape.Keys <= old(tree.shape.Keys) + {L2(c0.oldIdx3, i3)}
      ensures ok && L2(c0.oldIdx3, i3) !in old(tree.shape) ==> c0.pml3 in mem && Grants(mem[c0.pml3][i3].flags, flags, false)
      ensures c.pml3Valid == c0.pml3Valid && c.pml2Valid == c0.pml2Valid && (c.pml1Valid ==> c0.pml1Valid)
      ensures c.oldIdx3 == c0.oldIdx3 && c.pml3 == c0.pml3
      ensures Lookup(tree.shape, L2(c0.oldIdx3, i3)) == if ok then Some(c.pml2) else None
      ensures ok ==> c.oldIdx2 == i3 && (c.pml1Valid ==> c.pml3Valid && c.pml2Valid)
      ensures !ok ==> c == c0
    {
      hide Flat, Logged, Sound, WellFormed, Extends, Honest;
      ExtendsSelf(tree, pool);
      PlaceOf(mem, pml4, pool, tree, Cached3(c0));
      c := c0;
      ok := true;
      if !c.pml2Valid || c.oldIdx2 != i3 {
        var r := GetPml(c.pml3, i3, UpperFlags(flags, 3));
        CoherentExtends(old(tree), old(pool), tree, pool, c);
        if r.None? { return false, c; }
        c := c.(pml2 := r.value, oldIdx2 := i3, pml1Valid := false);
      }
    }

    /** Third block: the PML1 page under the cached PML2. */
    method Fill1(c0: Cache, i2: Index, flags: Flags) returns (ok: bool, c: Cache)
      requires Valid() && CoherentIn(tree.shape, c0)
      requires Lookup(tree.shape, Cached2(c0)) == Some(c0.pml2) && (c0.pml1Valid ==> c0.pml3Valid && c0.pml2Valid)
      modifies this`mem, this`pool, this`taken, this`refusals, this`tree
      ensures Valid() && View() == old(View()) && Extends(old(tree), old(pool), tree, pool)
      ensures CoherentIn(tree.shape, c)
      ensures !flags.present ==> mem == old(mem) && pool == old(pool) && tree == old(tree) && taken == old(taken)
      ensures refusals == if !ok && flags.present then old(refusals) + [|pool|] else old(refusals)
      ensures tree.shape.Keys <= old(tree.shape.Keys) + {L1(c0.oldIdx3, c0.oldIdx2, i2)}
      ensures ok && L1(c0.oldIdx3, c0.oldIdx2, i2) !in old(tree.shape) ==>
        c0.pml2 in mem && Grants(mem[c0.pml2][i2].flags, flags, false)
      ensures c.pml3Valid == c0.pml3Valid && c.pml2Valid == c0.pml2Valid && c.pml1Valid == c0.pml1Valid
      ensures Lookup(tree.shape, L1(c0.oldIdx3, c0.oldIdx2, i2)) == if ok then Some(c.pml1) else None
      ensures c == if ok then c0.(pml1 := c.pml1, oldIdx1 := i2) else c0
    {
      hide Flat, Logged, Sound, WellFormed, Extends, Honest;
      ExtendsSelf(tree, pool);
      PlaceOf(mem, pml4, pool, tree, Cached2(c0));
      c := c0;
      ok := true;
      if !c.pml1Valid || c.oldIdx1 != i2 {
        var r := GetPml(c.pml2, i2, UpperFlags(flags, 2));
        CoherentExtends(old(tree), old(pool), tree, pool, c);
        if r.None? { return false, c; }
        c := c.(pml1 := r.value, oldIdx1 := i2);
      }
    }

    /** The lowest level, once the second is in the cache. */
    method Descend1(c2: Cache, i4: Index, i3: Index, i2: Index, flags: Flags) returns (ok: bool, c: Cache)
      requires Valid() && CoherentIn(tree.shape, c2) && c2.oldIdx3 == i4 && c2.oldIdx2 == i3
      requires Lookup(tree.shape, L3(i4)) == Some(c2.pml3) && Lookup(tree.shape, L2(i4, i3)) == Some(c2.pml2)
      requires c2.pml1Valid ==> c2.pml3Valid && c2.pml2Valid
      modifies this`mem, this`pool, this`taken, this`refusals, this`tree
      ensures Valid() && View() == old(View()) && Extends(old(tree), old(pool), tree, pool)
      ensures CoherentIn(tree.shape, c)
      ensures !flags.present ==> mem == old(mem) && pool == old(pool) && tree == old(tree) && taken == old(taken)
      ensures refusals == if !ok && flags.present then old(refusals) + [|pool|] else old(refusals)
      ensures tree.shape.Keys <= old(tree.shape.Keys) + {L1(i4, i3, i2)}
      ensures c.pml3Valid == c2.pml3Valid && c.pml2Valid == c2.pml2Valid && c.pml1Valid == c2.pml1Valid
      ensures Lookup(tree.shape, L1(i4, i3, i2)) == if ok then Some(c.pml1) else None
      ensures CoherentEachIn(tree.shape, c) && L2(i4, i3) in tree.shape
    {
      hide Flat, Logged, CoherentIn, CoherentEachIn, Sound, Extends, Honest;
      ok, c := Fill1(c2, i2, flags);
      LookupExtends(old(tree), old(pool), tree, pool, L3(i4));
      LookupExtends(old(tree), old(pool), tree, pool, L2(i4, i3));
      CoherentExtends(old(tree), old(pool), tree, pool, c2);
      PassedEach(tree.shape, c2, c, i4, i3, ok, i2);
    }

    /** The lower two levels, once the third is in the cache; c0 is the cache from before. */
    method Descend2(c3: Cache, i4: Index, i3: Index, i2: Index, flags: Flags, ghost c0: Cache) returns (ok: bool, c: Cache)
      requires Valid() && CoherentIn(tree.shape, c3) && Lookup(tree.shape, L3(i4)) == Some(c3.pml3)
      requires c3 == c0.(pml3 := c3.pml3, oldIdx3 := i4, pml2Valid := c3.pml2Valid) && (c3.pml2Valid ==> c3.pml3Valid)
      modifies this`mem, this`pool, this`taken, this`refusals, this`tree
      ensures Valid() && View() == old(View()) && Extends(old(tree), old(pool), tree, pool)
      ensures CoherentIn(tree.shape, c)
      ensures !flags.present ==> mem == old(mem) && pool == old(pool) && tree == old(tree) && taken == old(taken)
      ensures refusals == if !ok && flags.present then old(refusals) + [|pool|] else old(refusals)
      ensures tree.shape.Keys <= old(tree.shape.Keys) + {L2(i4, i3), L1(i4, i3, i2)}
      ensures c.pml3Valid == c3.pml3Valid && (c.pml2Valid ==> c3.pml2Valid) && (c.pml1Valid ==> c3.pml1Valid)
      ensures Lookup(tree.shape, L1(i4, i3, i2)) == if ok then Some(c.pml1) else None
      ensures CoherentEachIn(old(tree.shape), c0) ==> (CoherentEachIn(tree.shape, c) <==> !LeftBehind(tree.shape, c0, i4, i3))
    {
      hide Flat, Logged, CoherentIn, CoherentEachIn, LeftBehind, Sound, Extends, Honest;
      ok, c := Fill2(c3, i3, flags);
      LookupExtends(old(tree), old(pool), tree, pool, L3(i4));
      if !ok {
        BelowMissing(mem, pml4, pool, tree, i4, i3, i2);
        if CoherentEachIn(old(tree.shape), c0) {
          EachExtends(old(tree), old(pool), tree, pool, c0);
          StoppedEach(mem, pml4, pool, tree, c0, c, i4, i3);
        }
        return;
      }
      ghost var t2, p2 := tree, pool;
      ok, c := Descend1(c, i4, i3, i2, flags);
      ExtendsTrans(old(tree), old(pool), t2, p2, tree, pool);
      NotBehind(tree.shape, c0, i4, i3);
    }

    /** page_table_traverse, after the address has been cut into its indexes. */
    method Descend(c0: Cache, i4: Index, i3: Index, i2: Index, flags: Flags) returns (ok: bool, c: Cache)
      requires Valid() && CoherentIn(tree.shape, c0)
      modifies this`mem, this`pool, this`taken, this`refusals, this`tree
      ensures Valid() && View() == old(View()) && Extends(old(tree), old(pool), tree, pool)
      ensures CoherentIn(tree.shape, c)
      ensures !flags.present ==> mem == old(mem) && pool == old(pool) && tree == old(tree) && taken == old(taken)
      ensures refusals == if !ok && flags.present then old(refusals) + [|pool|] else old(refusals)
      ensures tree.shape.Keys <= old(tree.shape.Keys) + PathTo(L1(i4, i3, i2))
      ensures c.pml3Valid == c0.pml3Valid && (c.pml2Valid ==> c0.pml2Valid) && (c.pml1Valid ==> c0.pml1Valid)
      ensures Lookup(tree.shape, L1(i4, i3, i2)) == if ok then Some(c.pml1) else None
      ensures CoherentEachIn(old(tree.shape), c0) ==> (CoherentEachIn(tree.shape, c) <==> !LeftBehind(tree.shape, c0, i4, i3))
    {
      hide Flat, Logged, CoherentIn, CoherentEachIn, LeftBehind, Sound, Extends, Honest;
      ok, c := Fill3(c0, i4, flags);
      if CoherentEachIn(old(tree.shape), c0) { EachExtends(old(tree), old(pool), tree, pool, c0); }
      if !ok {
        BelowMissing(mem, pml4, pool, tree, i4, i3, i2);
        NotBehind(tree.shape, c0, i4, i3);
        return;
      }
      ghost var t3, p3 := tree, pool;
      ok, c := Descend2(c, i4, i3, i2, flags, c0);
      ExtendsTrans(old(tree), old(pool), t3, p3, tree, pool);
    }

    method Traverse(c0: Cache, addr: Addr, flags: Flags) returns (ok: bool, c: Cache)
      requires Valid() && Coherent(mem, pml4, c0)
      modifies this`mem, this`pool, this`taken, this`refusals, this`tree
      ensures Valid() && View() == old(View()) && Extends(old(tree), old(pool), tree, pool)
      ensures Coherent(mem, pml4, c)
      ensures c.pml3Valid == c0.pml3Valid && (c.pml2Valid ==> c0.pml2Valid) && (c.pml1Valid ==> c0.pml1Valid)
      ensures Resolve(mem, pml4, LeafNode(PageOf(addr))) == if ok then Some(c.pml1) else None
      ensures ok <==> LeafNode(PageOf(addr)) in tree.shape
      ensures ok ==> c.entry == PageOf(addr) % INDEX_AMOUNT
      ensures CoherentEach(old(mem), pml4, c0) ==>
        (CoherentEach(mem, pml4, c) <==> !LeftBehind(tree.shape, c0, AddrToIndex(addr, 4), AddrToIndex(addr, 3)))
      ensures !flags.present ==> mem == old(mem) && pool == old(pool) && tree == old(tree) && taken == old(taken)
      ensures refusals == if !ok && flags.present then old(refusals) + [|pool|] else old(refusals)
      ensures tree.shape.Keys <= old(tree.shape.Keys) + PathTo(LeafNode(PageOf(addr)))
    {
      PathOf(addr);
      CoherentShape(mem, pml4, pool, tree, c0);
      CoherentEachShape(mem, pml4, pool, tree, c0);
      ok, c := Descend(c0, AddrToIndex(addr, 4), AddrToIndex(addr, 3), AddrToIndex(addr, 2), flags);
      if ok { c := c.(entry := AddrToIndex(addr, 1)); }
      ResolveIsShape(mem, pml4, tree.shape, tree.place, LeafNode(PageOf(addr)));
      CoherentShape(mem, pml4, pool, tree, c);
      CoherentEachShape(mem, pml4, pool, tree, c);
    }

    // ---- mapping ----------------------------------------------------------------------------------

    ghost predicate Accounts()
      reads this
    {
      Accounted(View(), tree.place.Keys, pool, ledger)
    }

    /** Store through the entry pointer a traversal left behind. */
    method WriteEntry(c: Cache, ghost v: Vpn, e: Entry)
      requires Sound(mem, pml4, pool, tree) && Coherent(mem, pml4, c)
      requires Resolve(mem, pml4, LeafNode(v)) == Some(c.pml1) && c.entry == v % INDEX_AMOUNT
      modifies this`mem
      ensures Sound(mem, pml4, pool, tree) && Coherent(mem, pml4, c)
      ensures View() == old(View())[v := e]
    {
      StoreSound(mem, pml4, pool, tree, v, c.pml1, e);
      CoherentShape(mem, pml4, pool, tree, c);
      mem := mem[c.pml1 := mem[c.pml1][c.entry := e]];
      CoherentShape(mem, pml4, pool, tree, c);
    }

    /** Read through the entry pointer a traversal left behind. */
    method ReadEntry(c: Cache, ghost v: Vpn) returns (e: Entry)
      requires Sound(mem, pml4, pool, tree)
      requires Resolve(mem, pml4, LeafNode(v)) == Some(c.pml1) && c.entry == v % INDEX_AMOUNT
      ensures e == View()[v]
    {
      StoreSound(mem, pml4, pool, tree, v, c.pml1, ZERO);
      e := mem[c.pml1][c.entry];
    }

    /** One page of a mapping loop. */
    method MapPage(c0: Cache, addr: Addr, pfn: Pfn, flags: Flags, callbackId: nat) returns (ok: bool, c: Cache)
      requires Valid() && Accounts() && Coherent(mem, pml4, c0) && flags.present
      requires flags.owned ==> pfn !in ledger.total
      modifies this`mem, this`pool, this`taken, this`refusals, this`tree, this`ledger
      ensures Valid() && Accounts() && Coherent(mem, pml4, c)
      ensures tree.shape.Keys <= old(tree.shape.Keys) + PathTo(LeafNode(PageOf(addr)))
      ensures Extends(old(tree), old(pool), tree, pool)
      ensures ok ==> refusals == old(refusals) && LeafNode(PageOf(addr)) in tree.shape
      ensures var v, e := PageOf(addr), MapEntry(flags, pfn, callbackId);
        if ok then
          && !old(View())[v].Present()
          && View() == old(View())[v := e]
          && ledger == Overwrite(old(ledger), old(View())[v], e, v)
        else
          && View() == old(View()) && ledger == old(ledger)
          && (View()[v].Present() || (refusals == old(refusals) + [|pool|] && LeafNode(v) !in tree.shape))
    {
      hide Accounted, Coherent, Logged, Resolve, LeafNode, Overwrite, Sound, Extends, Flat, PageOf, PathTo, OwnedFrame,
        Honest;
      ok, c := Traverse(c0, addr, flags);
      GrownAccounts(mem, pml4, old(tree), old(pool), tree, pool, ledger);
      if !ok { return; }
      ghost var v := PageOf(addr);
      var entry := ReadEntry(c, v);
      if entry.Present() { return false, c; }
      PutEntry(c, v, entry, MapEntry(flags, pfn, callbackId));
    }

    /** A leaf entry is overwritten: a frame the old one owned is lost, one the new one owns is taken over. */
    method PutEntry(c: Cache, ghost v: Vpn, ghost entry: Entry, e: Entry)
      requires Valid() && Accounts() && Coherent(mem, pml4, c) && entry == View()[v]
      requires (e.Owned() ==> e.pfn !in ledger.total)
      requires Resolve(mem, pml4, LeafNode(v)) == Some(c.pml1) && c.entry == v % INDEX_AMOUNT
      modifies this`mem, this`taken, this`ledger
      ensures Valid() && Accounts() && Coherent(mem, pml4, c)
      ensures View() == old(View())[v := e] && ledger == Overwrite(old(ledger), entry, e, v)
    {
      hide Accounted, Coherent, Logged, Resolve, LeafNode, Overwrite, Sound, Flat, OwnedFrame, Honest;
      AccountOverwrite(View(), tree.place.Keys, pool, ledger, v, e);
      LogOverwrite(taken, freed, pool, ledger, entry, e, v);
      WriteEntry(c, v, e);
      ledger := Overwrite(ledger, entry, e, v);
      taken := taken + multiset(OwnedFrame(e));
    }

    /** page_table_map_pages: pages of the range lead to the given frames, in order. */
    method MapPages(addr: Addr, pfns: seq<nat>, flags: Flags, callbackId: nat) returns (ok: bool, ghost done: nat)
      requires Valid() && Accounts()
      requires flags.owned ==> Handover(Fields(pfns), ledger.total)
      modifies this`mem, this`pool, this`taken, this`refusals, this`tree, this`ledger
      ensures Valid() && Accounts()
      ensures MappedPrefix(old(View()), old(ledger), View(), ledger, addr, Fields(pfns), done, flags, callbackId)
      ensures forall i: nat :: i < done <= |pfns| ==>
        var e := View()[PageAt(addr, i)];
        && e.flags == flags && e.pfn == pfns[i] % PFN_LIMIT && !e.pinned
        && e.lowCallbackId < 2 && e.lowCallbackId + 2 * e.highCallbackId == callbackId
      ensures ok <==> flags.present && done == |pfns|
      ensures !flags.present ==> done == 0
      ensures flags.present && !ok ==>
        || View()[PageAt(addr, done)].Present()
        || (refusals == old(refusals) + [|pool|] && LeafNode(PageAt(addr, done)) !in tree.shape)
      ensures flags.present && !ok && !stingy ==> View()[PageAt(addr, done)].Present() || pool == {}
      ensures ok ==> refusals == old(refusals)
      ensures Grew(old(tree), old(pool), tree, pool, addr, if ok then done else done + 1, done)
    {
      hide Accounted, Coherent, Logged, Sound, Flat, PageOf, PageAt, MappedPrefix, Grew, Extends, PathTo, LeafNode,
        MapEntry,
        Overwrite, Handover, Honest;
      ghost var frames := Fields(pfns);
      assert Total(View()) by { FlatTotal(mem, pml4); }
      done := 0;
      MappedNone(View(), ledger, addr, frames, flags, callbackId);
      GrewNone(tree, pool, addr);
      if !flags.present { return false, 0; }
      var traverse := CACHE_CREATE;
      assert Coherent(mem, pml4, traverse) by { CreateCoherent(mem, pml4); }
      var cursor := addr;
      var i := 0;
      while i < |pfns|
        invariant 0 <= i <= |pfns| && done == i && cursor == (addr + i * PAGE_SIZE) % ADDR_LIMIT
        invariant Valid() && Accounts() && Coherent(mem, pml4, traverse)
        invariant MappedPrefix(old(View()), old(ledger), View(), ledger, addr, frames, i, flags, callbackId)
        invariant refusals == old(refusals) && Grew(old(tree), old(pool), tree, pool, addr, i, i)
      {
        NextPage(cursor, addr, i);
        StillNew(old(View()), old(ledger), View(), ledger, addr, frames, i, flags, callbackId);
        ghost var f, l, tree1, pool1 := View(), ledger, tree, pool;
        ok, traverse := MapPage(traverse, cursor, Field(pfns[i]), flags, callbackId);
        GrewOne(old(tree), old(pool), tree1, pool1, tree, pool, addr, i);
        if !ok {
          if !stingy && refusals == old(refusals) + [|pool|] { HonestLast(stingy, old(refusals), pool); }
          MappedShows(old(View()), old(ledger), View(), ledger, addr, frames, i, flags, callbackId);
          return;
        }
        MappedOne(old(View()), old(ledger), f, l, addr, frames, i, flags, callbackId);
        cursor := Next(cursor);
        i := i + 1;
        done := i;
      }
      MappedShows(old(View()), old(ledger), View(), ledger, addr, frames, i, flags, callbackId);
      return true, done;
    }

    /** page_table_map: pages of the range lead to consecutive frames. */
    method Map(addr: Addr, phys: Addr, amount: nat, flags: Flags, callbackId: nat) returns (ok: bool, ghost done: nat)
      requires Valid() && Accounts()
      requires flags.owned ==> Handover(FramesFrom(phys, amount), ledger.total)
      modifies this`mem, this`pool, this`taken, this`refusals, this`tree, this`ledger
      ensures Valid() && Accounts()
      ensures MappedPrefix(old(View()), old(ledger), View(), ledger, addr, FramesFrom(phys, amount), done, flags, callbackId)
      ensures forall i: nat :: i < done ==>
        var e := View()[PageAt(addr, i)];
        && e.flags == flags && e.pfn == (phys / PAGE_SIZE + i) % PFN_LIMIT && !e.pinned
        && e.lowCallbackId < 2 && e.lowCallbackId + 2 * e.highCallbackId == callbackId
      ensures ok <==> flags.present && done == amount
      ensures !flags.present ==> done == 0
      ensures flags.present && !ok ==>
        || View()[PageAt(addr, done)].Present()
        || (refusals == old(refusals) + [|pool|] && LeafNode(PageAt(addr, done)) !in tree.shape)
      ensures flags.present && !ok && !stingy ==> View()[PageAt(addr, done)].Present() || pool == {}
      ensures ok ==> refusals == old(refusals)
      ensures Grew(old(tree), old(pool), tree, pool, addr, if ok then done else done + 1, done)
    {
      hide Accounted, Coherent, Logged, Sound, Flat, PageOf, PageAt, MappedPrefix, Grew, Extends, PathTo, LeafNode,
        MapEntry,
        Overwrite, Handover, Honest;
      ghost var frames := FramesFrom(phys, amount);
      FlatTotal(mem, pml4);
      done := 0;
      MappedNone(View(), ledger, addr, frames, flags, callbackId);
      GrewNone(tree, pool, addr);
      if !flags.present { return false, 0; }
      var traverse := CACHE_CREATE;
      CreateCoherent(mem, pml4);
      var cursor, frame := addr, phys;
      var i := 0;
      while i < amount
        invariant 0 <= i <= amount && done == i && cursor == (addr + i * PAGE_SIZE) % ADDR_LIMIT
        invariant frame == (phys + i * PAGE_SIZE) % ADDR_LIMIT
        invariant Valid() && Accounts() && Coherent(mem, pml4, traverse)
        invariant MappedPrefix(old(View()), old(ledger), View(), ledger, addr, frames, i, flags, callbackId)
        invariant refusals == old(refusals) && Grew(old(tree), old(pool), tree, pool, addr, i, i)
      {
        NextPage(cursor, addr, i);
        NextFrame(frame, phys, i);
        StillNew(old(View()), old(ledger), View(), ledger, addr, frames, i, flags, callbackId);
        ghost var f, l, tree1, pool1 := View(), ledger, tree, pool;
        ok, traverse := MapPage(traverse, cursor, Field(PhysToPfn(frame)), flags, callbackId);
        GrewOne(old(tree), old(pool), tree1, pool1, tree, pool, addr, i);
        if !ok {
          if !stingy && refusals == old(refusals) + [|pool|] { HonestLast(stingy, old(refusals), pool); }
          MappedShows(old(View()), old(ledger), View(), ledger, addr, frames, i, flags, callbackId);
          return;
        }
        MappedOne(old(View()), old(ledger), f, l, addr, frames, i, flags, callbackId);
        frame := Next(frame);
        cursor := Next(cursor);
        i := i + 1;
        done := i;
      }
      MappedShows(old(View()), old(ledger), View(), ledger, addr, frames, i, flags, callbackId);
      return true, done;
    }

    // ---- unmapping and clearing -----------------------------------------------------------------

    /** page_table_unmap: present entries of the range become absent and nothing is freed. */
    method Unmap(addr: Addr, amount: nat)
      requires Valid() && Accounts()
      modifies this`mem, this`pool, this`taken, this`refusals, this`tree
      ensures pool == old(pool) && taken == old(taken) && tree == old(tree) && refusals == old(refusals)
      ensures Valid() && Accounts()
      ensures View() == UnmapRange(old(View()), addr, amount)
      ensures forall v: Vpn ::
        var e := old(View())[v];
        View()[v] == if Offset(addr, v) < amount then e.(flags := e.flags.(present := false)) else e
    {
      hide Accounted, Coherent, Logged, WellFormed, Flat, PageOf, UnmapRange, Honest;
      FlatTotal(mem, pml4);
      var traverse := CACHE_CREATE;
      CreateCoherent(mem, pml4);
      UnmapNone(View(), addr);
      var i := 0;
      while i < amount
        invariant 0 <= i <= amount && pool == old(pool) && taken == old(taken) && tree == old(tree)
        invariant refusals == old(refusals)
        invariant Valid() && Accounts() && Coherent(mem, pml4, traverse)
        invariant View() == UnmapRange(old(View()), addr, i)
      {
        UnmapOne(old(View()), addr, i);
        var cursor := (addr + i * PAGE_SIZE) % ADDR_LIMIT;
        NextPage(cursor, addr, i);
        traverse := UnmapPage(traverse, cursor);
        i := i + 1;
      }
      UnmapShows(old(View()), addr, amount);
    }

    method UnmapPage(c0: Cache, addr: Addr) returns (c: Cache)
      requires Valid() && Accounts() && Coherent(mem, pml4, c0)
      modifies this`mem, this`pool, this`taken, this`refusals, this`tree
      ensures pool == old(pool) && taken == old(taken) && tree == old(tree) && refusals == old(refusals)
      ensures Valid() && Accounts() && Coherent(mem, pml4, c)
      ensures var v := PageOf(addr); View() == old(View())[v := Hidden(old(View())[v])]
    {
      hide Accounted, Coherent, Logged, WellFormed, PageOf, LeafNode, Honest;
      ghost var v := PageOf(addr);
      FlatTotal(mem, pml4);
      AbsentIsZero(mem, pml4, v);
      var ok;
      ok, c := Traverse(c0, addr, NONE);
      if !ok { assert View()[v := Hidden(View()[v])] == View(); return; }
      var entry := ReadEntry(c, v);
      if !entry.Present() { assert View()[v := Hidden(View()[v])] == View(); return; }
      AccountKeep(View(), tree.place.Keys, pool, ledger, v, Hidden(entry));
      WriteEntry(c, v, Hidden(entry));
    }

    // ---- freeing --------------------------------------------------------------------------------

    /** The table's freePages callback. Passing a frame that is free, or was never shared, is an error. */
    method FreePages(pfns: seq<Pfn>)
      requires Logged(taken, freed, ledger.total - pool) && pool <= ledger.total
      requires Distinct(pfns) && Members(pfns) <= ledger.total - pool
      modifies this`mem, this`pool, this`freed
      ensures Logged(taken, freed, ledger.total - pool) && pool <= ledger.total
      ensures pool == old(pool) + Members(pfns) && mem == old(mem) - Members(pfns)
      ensures freed == old(freed) + multiset(pfns)
    {
      hide Logged, Members, Distinct, Honest;
      Freed(taken, freed, ledger.total - pool, Members(pfns));
      DistinctMultiset(pfns);
      assert ledger.total - (pool + Members(pfns)) == (ledger.total - pool) - Members(pfns);
      pool := pool + Members(pfns);
      mem := mem - Members(pfns);
      freed := freed + multiset(pfns);
    }

    /** Frames in the buffer are the pending ones of the ledger. */
    ghost predicate Buffers(buffer: PageBuffer)
      reads this, buffer, buffer.pfns
    {
      buffer.Valid() && Members(buffer.Contents()) == ledger.pending
    }

    /** page_table_page_buffer_push: a full buffer is released at once. */
    method BufferPush(buffer: PageBuffer, pfn: Pfn)
      requires Logged(taken, freed, ledger.total - pool) && pool <= ledger.total && Buffers(buffer)
      requires pfn in ledger.total && pfn !in ledger.pending + pool && ledger.pending <= ledger.total - pool
      requires ledger.pending + {pfn} !! mem.Keys
      modifies buffer, buffer.pfns, this`mem, this`pool, this`freed, this`ledger
      ensures Logged(taken, freed, ledger.total - pool) && pool <= ledger.total && Buffers(buffer)
      ensures ledger == old(ledger).(pending := ledger.pending) && mem == old(mem)
      ensures pool + ledger.pending == old(pool + ledger.pending) + {pfn} && pool !! ledger.pending && old(pool) <= pool
      ensures freed == old(freed) + multiset(pool - old(pool))
    {
      hide Logged, Distinct, Members, Honest;
      Append(buffer.Contents(), pfn);
      buffer.pfns[buffer.amount] := pfn;
      buffer.amount := buffer.amount + 1;
      assert buffer.Contents() == old(buffer.Contents()) + [pfn];
      ledger := ledger.(pending := ledger.pending + {pfn});
      if buffer.amount >= PAGE_BUFFER_SIZE {
        Release(buffer);
      }
    }

    /** page_table_page_buffer_flush */
    method BufferFlush(buffer: PageBuffer)
      requires Logged(taken, freed, ledger.total - pool) && pool <= ledger.total && Buffers(buffer)
      requires ledger.pending <= ledger.total - pool && ledger.pending !! mem.Keys
      modifies buffer, this`mem, this`pool, this`freed, this`ledger
      ensures Logged(taken, freed, ledger.total - pool) && pool <= ledger.total && Buffers(buffer)
      ensures ledger == old(ledger).(pending := {}) && mem == old(mem)
      ensures pool == old(pool + ledger.pending)
      ensures freed == old(freed) + multiset(pool - old(pool))
    {
      if buffer.amount > 0 {
        Release(buffer);
      }
    }

    method Release(buffer: PageBuffer)
      requires Logged(taken, freed, ledger.total - pool) && pool <= ledger.total
      requires buffer.amount <= buffer.pfns.Length == PAGE_BUFFER_SIZE
      requires Distinct(buffer.Contents()) && Members(buffer.Contents()) == ledger.pending
      requires ledger.pending <= ledger.total - pool && ledger.pending !! mem.Keys
      modifies buffer, this`mem, this`pool, this`freed, this`ledger
      ensures Logged(taken, freed, ledger.total - pool) && pool <= ledger.total && Buffers(buffer)
      ensures ledger == old(ledger).(pending := {}) && mem == old(mem)
      ensures pool == old(pool + ledger.pending) && freed == old(freed) + multiset(pool - old(pool))
    {
      hide Logged, Honest;
      DistinctMultiset(buffer.Contents());
      FreePages(buffer.Contents());
      assert mem == old(mem);
      assert pool - old(pool) == old(ledger.pending);
      buffer.amount := 0;
      ledger := ledger.(pending := {});
    }

    /** The frame of a stale owning entry goes to the buffer; its entry is about to be zeroed. */
    method QueueFrame(buffer: PageBuffer, ghost v: Vpn, pfn: Pfn)
      requires Valid() && Accounts() && Buffers(buffer) && View()[v].Owned() && View()[v].pfn == pfn
      modifies this`mem, this`pool, this`freed, this`ledger, buffer, buffer.pfns
      ensures Valid() && Buffers(buffer) && mem == old(mem)
      ensures Accounted(View()[v := ZERO], tree.place.Keys, pool, ledger)
      ensures ledger.lost == old(ledger.lost) && ledger.total == old(ledger.total)
      ensures pool + ledger.pending == old(pool + ledger.pending) + {pfn}
      ensures old(pool) <= pool && freed == old(freed) + multiset(pool - old(pool))
    {
      hide Accounted, Logged, WellFormed, Members, Distinct, Flat, Honest;
      OwnedRole(View(), tree.place.Keys, pool, ledger, v);
      SoundKeys(mem, pml4, pool, tree);
      BufferPush(buffer, pfn);
      AccountRelease(View(), tree.place.Keys, old(pool), old(ledger), v, pool, ledger.pending);
      ledger := Released(old(ledger), pfn, ledger.pending);
      LevelsNotFree(View()[v := ZERO], tree.place.Keys, pool, ledger);
    }

    /** One page of the clearing loop. */
    method ClearPage(c0: Cache, addr: Addr, buffer: PageBuffer) returns (c: Cache)
      requires Valid() && Accounts() && Coherent(mem, pml4, c0) && Buffers(buffer)
      modifies this, buffer, buffer.pfns
      ensures Valid() && Accounts() && Coherent(mem, pml4, c) && Buffers(buffer)
      ensures pml4 == old(pml4) && taken == old(taken) && tree == old(tree) && refusals == old(refusals)
      ensures var v := PageOf(addr); var e := old(View())[v];
        && View() == old(View())[v := Cleared(e)]
        && ledger.lost == old(ledger.lost) && ledger.total == old(ledger.total)
        && pool + ledger.pending == old(pool + ledger.pending) + (if e.Present() then {} else OwnedFrame(e))
        && old(pool) <= pool && freed == old(freed) + multiset(pool - old(pool))
    {
      hide Accounted, Coherent, Logged, Sound, PageOf, LeafNode, Resolve, Flat, Members, Distinct, Honest;
      ghost var v := PageOf(addr);
      FlatTotal(mem, pml4);
      AbsentIsZero(mem, pml4, v);
      var ok;
      ok, c := Traverse(c0, addr, NONE);
      ClearedSame(View(), v);
      assert View() == old(View()) && Buffers(buffer);
      hide Cleared, OwnedFrame, PageTable.Buffers;
      if !ok { return; }
      var entry := ReadEntry(c, v);
      if entry.Present() { return; }
      ZeroEntry(c, v, entry, buffer);
    }

    /** An absent entry becomes zero; a frame it owned goes to the buffer. */
    method ZeroEntry(c: Cache, ghost v: Vpn, entry: Entry, buffer: PageBuffer)
      requires Valid() && Accounts() && Coherent(mem, pml4, c) && Buffers(buffer) && entry == View()[v]
      requires Resolve(mem, pml4, LeafNode(v)) == Some(c.pml1) && c.entry == v % INDEX_AMOUNT
      modifies this`mem, this`pool, this`freed, this`ledger, buffer, buffer.pfns
      ensures Valid() && Accounts() && Coherent(mem, pml4, c) && Buffers(buffer)
      ensures View() == old(View())[v := ZERO]
      ensures ledger.lost == old(ledger.lost) && ledger.total == old(ledger.total)
      ensures pool + ledger.pending == old(pool + ledger.pending) + OwnedFrame(entry)
      ensures old(pool) <= pool && freed == old(freed) + multiset(pool - old(pool))
    {
      hide Accounted, Coherent, Logged, Sound, LeafNode, Resolve, Flat, Members, Distinct, Honest;
      if entry.Owned() {
        QueueFrame(buffer, v, entry.pfn);
      } else {
        AccountKeep(View(), tree.place.Keys, pool, ledger, v, ZERO);
      }
      WriteEntry(c, v, ZERO);
    }

    /** page_table_clear: absent entries of the range become zero and their owned frames are freed, once each. */
    method Clear(addr: Addr, amount: nat)
      requires Valid() && Accounts() && ledger.pending == {}
      modifies this
      ensures Valid() && Accounts() && ledger.pending == {}
      ensures pml4 == old(pml4) && taken == old(taken) && tree == old(tree) && refusals == old(refusals)
      ensures View() == ClearRange(old(View()), addr, amount)
      ensures forall v: Vpn ::
        var e := old(View())[v];
        View()[v] == if Offset(addr, v) < amount && !e.flags.present then Entry(NONE, false, 0, 0, 0) else e
      ensures ledger.lost == old(ledger.lost) && ledger.total == old(ledger.total)
      ensures pool == old(pool) + StaleIn(old(View()), addr, amount)
      ensures freed == old(freed) + multiset(pool - old(pool))
    {
      hide Accounted, Coherent, Logged, WellFormed, PageOf, Flat, ClearedPrefix, Members, Distinct, PageAt, ClearRange,
        Offset,
        StaleIn, Sound, Honest;
      var buffer := new PageBuffer();
      NoMembers();
      FlatTotal(mem, pml4);
      var traverse := CACHE_CREATE;
      CreateCoherent(mem, pml4);
      ghost var f0, pool0, l0, freed0 := View(), pool, ledger, freed;
      ClearedNone(f0, pool0, l0, freed0, addr);
      var i := 0;
      while i < amount
        invariant 0 <= i <= amount && fresh(buffer) && fresh(buffer.pfns)
        invariant Valid() && Accounts() && Coherent(mem, pml4, traverse) && Buffers(buffer)
        invariant pml4 == old(pml4) && taken == old(taken) && tree == old(tree) && refusals == old(refusals)
        invariant ClearedPrefix(f0, pool0, l0, freed0, View(), pool, ledger, freed, addr, i)
      {
        var cursor := (addr + i * PAGE_SIZE) % ADDR_LIMIT;
        NextPage(cursor, addr, i);
        FlatTotal(mem, pml4);
        ghost var f, pool1, l, freed1 := View(), pool, ledger, freed;
        traverse := ClearPage(traverse, cursor, buffer);
        ClearedOne(f0, pool0, l0, freed0, f, pool1, l, freed1, View(), pool, ledger, freed, addr, i);
        i := i + 1;
      }
      ghost var pool1, l, freed1 := pool, ledger, freed;
      FinishClear(buffer);
      ClearedAll(f0, pool0, l0, freed0, View(), pool1, l, freed1, pool, freed, addr, amount);
      ClearShows(f0, addr, amount);
    }

    method FinishClear(buffer: PageBuffer)
      requires Valid() && Accounts() && Buffers(buffer)
      modifies buffer, this`mem, this`pool, this`freed, this`ledger
      ensures Valid() && Accounts() && mem == old(mem)
      ensures ledger == old(ledger).(pending := {})
      ensures pool == old(pool + ledger.pending) && freed == old(freed) + multiset(pool - old(pool))
    {
      hide Accounted, Logged, WellFormed, Flat, Members, Distinct, Honest;
      AccountFlush(View(), tree.place.Keys, pool, ledger);
      SoundKeys(mem, pml4, pool, tree);
      BufferFlush(buffer);
      LevelsNotFree(View(), tree.place.Keys, pool, ledger);
    }

    // ---- setup and teardown -----------------------------------------------------------------------

    method FreePage(pfn: Pfn)
      requires Logged(taken, freed, ledger.total - pool) && pool <= ledger.total
      requires pfn in ledger.total && pfn !in pool
      modifies this`mem, this`pool, this`freed
      ensures Logged(taken, freed, ledger.total - pool) && pool <= ledger.total
      ensures GaveBack(old(pool), old(mem), old(freed), pool, mem, freed, {pfn})
    {
      hide Logged, Honest;
      assert Members([pfn]) == {pfn} && multiset([pfn]) == multiset{pfn};
      FreePages([pfn]);
    }

    /** pml_free: everything reachable below a level is freed once, children first. */
    method PmlFree(pml: Pfn, level: nat, ghost n: Node, ghost s: Snapshot)
      requires s.Valid() && n in s.tree.shape && s.tree.shape[n] == pml && level == n.Level()
      requires Logged(taken, freed, ledger.total - pool) && pool <= ledger.total
      requires s.Doomed(n) <= ledger.total - pool && s.Intact(n, mem)
      modifies this`mem, this`pool, this`freed
      ensures Logged(taken, freed, ledger.total - pool) && pool <= ledger.total
      ensures GaveBack(old(pool), old(mem), old(freed), pool, mem, freed, s.Doomed(n))
      decreases level, 1
    {
      hide Logged, Snapshot.Doomed, Snapshot.DoomedBelow, Snapshot.Valid, Snapshot.Intact, GaveBack, Honest;
      s.DoomedNone(n);
      GaveNothing(pool, mem, freed);
      var i := 0;
      while i < INDEX_AMOUNT
        invariant 0 <= i <= INDEX_AMOUNT
        invariant Logged(taken, freed, ledger.total - pool) && pool <= ledger.total
        invariant GaveBack(old(pool), old(mem), old(freed), pool, mem, freed, s.DoomedBelow(n, i))
      {
        s.DoomedPart(n, i);
        s.StillIntact(n, i, old(mem));
        ghost var pool1, mem1, freed1 := pool, mem, freed;
        GaveBackIs(old(pool), old(mem), old(freed), pool, mem, freed, s.DoomedBelow(n, i));
        FreeEntry(pml, level, i, n, s);
        GiveBackMore(old(pool), old(mem), old(freed), pool1, mem1, freed1, s.DoomedBelow(n, i),
          pool, mem, freed, s.DoomedBelow(n, i + 1));
        i := i + 1;
      }
      s.DoomedAll(n);
      ghost var pool1, mem1, freed1 := pool, mem, freed;
      GaveBackIs(old(pool), old(mem), old(freed), pool, mem, freed, s.DoomedBelow(n, i));
      FreePage(pml);
      GiveBackMore(old(pool), old(mem), old(freed), pool1, mem1, freed1, s.DoomedBelow(n, i), pool, mem, freed,
        s.Doomed(n));
    }

    /** One round of pml_free's loop. */
    method FreeEntry(pml: Pfn, level: nat, i: Index, ghost n: Node, ghost s: Snapshot)
      requires s.Valid() && n in s.tree.shape && s.tree.shape[n] == pml && level == n.Level()
      requires Logged(taken, freed, ledger.total - pool) && pool <= ledger.total
      requires s.DoomedBelow(n, i + 1) - s.DoomedBelow(n, i) <= ledger.total - pool
      requires s.IntactFrom(n, i, mem)
      modifies this`mem, this`pool, this`freed
      ensures Logged(taken, freed, ledger.total - pool) && pool <= ledger.total
      ensures GaveBack(old(pool), old(mem), old(freed), pool, mem, freed, s.DoomedBelow(n, i + 1) - s.DoomedBelow(n, i))
      decreases level, 0
    {
      hide Logged, Snapshot.Doomed, Snapshot.DoomedBelow, Snapshot.Valid, Snapshot.Intact, Honest;
      s.ScannedPage(n, i, mem);
      var entry := mem[pml][i];
      if !entry.Present() {
        s.DoomedAbsent(n, i);
      } else if level > 1 {
        s.DoomedBranch(n, i);
        s.DoomedChild(n, i);
        s.ChildIntact(n, i, mem);
        PmlFree(entry.pfn, level - 1, n.Child(i), s);
      } else {
        s.DoomedLeaf(n, i);
        if entry.Owned() {
          FreePage(entry.pfn);
        }
      }
    }

    /** A page_table_t not initialised yet. */
    constructor (stingy: bool)
      ensures this.stingy == stingy && mem == map[] && pool == {} && refusals == []
    {
      this.stingy := stingy;
      mem, pml4, pool := map[], 0, {};
      refusals := [];
    }

    method Reset(frames: set<Pfn>)
      modifies this
      ensures mem == map[] && pool == frames && refusals == [] && ledger == Ledger(map[], {}, {}, frames)
      ensures taken == freed == multiset{} && Logged(taken, freed, ledger.total - pool) && Honest(stingy, refusals)
    {
      hide Logged, Honest;
      mem, pool, refusals := map[], frames, [];
      ledger, taken, freed := Ledger(map[], {}, {}, frames), multiset{}, multiset{};
      NothingTaken(frames);
    }

    /** page_table_init: one zeroed root page from the given frames, or a failure that takes nothing. */
    method Init(frames: set<Pfn>) returns (ok: bool)
      modifies this
      ensures pool <= frames && ledger == Ledger(map[], {}, {}, frames)
      ensures Logged(taken, freed, ledger.total - pool) && freed == multiset{}
      ensures ok ==> Valid() && Accounts() && Blank(View()) && tree.shape.Keys == {L4} && refusals == []
      ensures ok ==> tree.place.Keys + pool == frames
      ensures !ok ==> pool == frames && taken == multiset{} && refusals == [|pool|] && (!stingy ==> frames == {})
    {
      hide Logged, Accounted, Sound, WellFormed, Flat, Blank, EmptyPml, RootTree, Honest;
      Reset(frames);
      var r := PmlNew();
      if r.None? {
        if !stingy { HonestLast(stingy, [], pool); }
        return false;
      }
      pml4 := r.value;
      tree := RootTree(pml4);
      FreshTable(mem, pml4, pool, frames);
      return true;
    }

    /** page_table_deinit: every level and every owned present frame is freed once; only stale frames are lost. */
    method Deinit()
      requires Valid() && Accounts() && ledger.pending == {}
      modifies this`mem, this`pool, this`freed, this`ledger
      ensures mem == map[]
      ensures ledger == Ledger(map[], old(ledger.lost) + StaleIn(old(View()), 0, PAGE_LIMIT), {}, old(ledger.total))
      ensures pool == ledger.total - ledger.lost
      ensures taken == freed + multiset(ledger.lost)
    {
      hide Accounted, WellFormed, Flat, Snapshot.Doomed, Snapshot.Valid, Snapshot.Intact, StaleIn, Logged, GaveBack, Honest;
      ghost var s := Snapshot(mem, pml4, tree, ledger.owners);
      TeardownPlan(s, pool, ledger);
      PmlFree(pml4, 4, L4, s);
      GaveBackIs(old(pool), old(mem), old(freed), pool, mem, freed, s.Doomed(L4));
      ledger := Ledger(map[], ledger.lost + StaleIn(old(View()), 0, PAGE_LIMIT), {}, ledger.total);
      assert ledger.total - pool == ledger.lost;
      LoggedIs(taken, freed, ledger.lost);
    }
  }

  /** With more frames than levels in sight the allocator does not run out. */
  lemma NotOut(mem: Memory, root: Pfn, pool: set<Pfn>, t: Tree, frames: set<Pfn>, nodes: set<Node>)
    requires Sound(mem, root, pool, t) && t.place.Keys + pool == frames && t.shape.Keys <= nodes && |nodes| < |frames|
    ensures pool != {}
  {
    hide Sound;
    FewLevels(mem, root, pool, t, nodes);
  }

  /** So the first page of a new table is mapped. */
  lemma FirstServed(mem: Memory, root: Pfn, t0: Tree, pool0: set<Pfn>, t: Tree, pool: set<Pfn>, addr: Addr, done: nat,
      frames: set<Pfn>)
    requires Sound(mem, root, pool, t) && t0.shape.Keys == {L4} && t0.place.Keys + pool0 == frames && |frames| > 4
    requires Grew(t0, pool0, t, pool, addr, 1, done)
    ensures pool != {}
  {
    hide Sound, PathTo, OnPaths, PageAt;
    var n := LeafNode(PageAt(addr, 0));
    OnePath(t0.shape, t.shape, addr);
    PathSize(n);
    NotOut(mem, root, pool, t, frames, {L4} + PathTo(n));
  }

  lemma OnePath(shape0: map<Node, Pfn>, shape: map<Node, Pfn>, addr: Addr)
    requires shape0.Keys == {L4} && OnPaths(shape0, shape, addr, 1)
    ensures shape.Keys <= {L4} + PathTo(LeafNode(PageAt(addr, 0)))
  {
    hide PathTo, PageAt, Offset;
    forall v: Vpn | Offset(addr, v) < 1 ensures v == PageAt(addr, 0) { PageAtOffset(addr, v); }
  }

  lemma PathSize(n: Node)
    requires n.L1?
    ensures |{L4} + PathTo(n)| == 4
  {
    assert {L4} + PathTo(n) == {L4, L3(n.i4), L2(n.i4, n.i3), n};
  }

  /** A table with the levels down to page 0. */
  method OneTop(frames: set<Pfn>) returns (t: PageTable, pml1: Pfn)
    requires |frames| > 5
    ensures fresh(t) && t.Valid() && !t.stingy && t.refusals == [] && Lookup(t.tree.shape, L1(0, 0, 0)) == Some(pml1)
    ensures t.tree.shape.Keys <= {L4} + PathTo(L1(0, 0, 0)) && t.tree.place.Keys + t.pool == frames
  {
    hide Flat, Logged, Sound, Accounted, Extends, Resolve, Blank, CoherentEach, LeafNode, Coherent, LeftBehind, Honest;
    t := new PageTable(false);
    var ok := t.Init(frames);
    CreateCoherent(t.mem, t.pml4);
    ghost var t0, pool0 := t.tree, t.pool;
    var c;
    ok, c := t.Traverse(CACHE_CREATE, 0, UpperFlags(NONE.(present := true), 4));
    FirstLeaf();
    PathSize(L1(0, 0, 0));
    ExtendsFrames(t0, pool0, t.tree, t.pool);
    NotOut(t.mem, t.pml4, t.pool, t.tree, frames, {L4} + PathTo(L1(0, 0, 0)));
    Served(ok, t.stingy, [], t.refusals, t.pool);
    ResolveSound(t.mem, t.pml4, t.pool, t.tree, L1(0, 0, 0));
    pml1 := c.pml1;
  }

  lemma ExtendsFrames(t: Tree, pool: set<Pfn>, t': Tree, pool': set<Pfn>)
    requires Extends(t, pool, t', pool')
    ensures t'.place.Keys + pool' == t.place.Keys + pool
  {}

  /** A request is served if frames are left and the allocator is not stingy. */
  lemma Served(ok: bool, stingy: bool, refusals0: seq<nat>, refusals: seq<nat>, pool: set<Pfn>)
    requires !stingy && Honest(stingy, refusals) && (!ok ==> refusals == refusals0 + [|pool|]) && pool != {}
    ensures ok
  {
    if !ok { HonestLast(stingy, refusals0, pool); }
  }

  /** A table with the levels down to page 0 and one more entry at the top. */
  method TwoTops(frames: set<Pfn>) returns (t: PageTable, pml1: Pfn)
    requires |frames| > 5
    ensures fresh(t) && t.Valid() && Lookup(t.tree.shape, L1(0, 0, 0)) == Some(pml1)
    ensures L3(1) in t.tree.shape && L2(1, 0) !in t.tree.shape
  {
    hide Flat, Logged, Sound, Extends, Honest;
    t, pml1 := OneTop(frames);
    PlaceOf(t.mem, t.pml4, t.pool, t.tree, L4);
    ghost var t1, p1 := t.tree, t.pool;
    var r := t.GetPml(t.pml4, 1, UpperFlags(NONE.(present := true), 4));
    ExtendsFrames(t1, p1, t.tree, t.pool);
    PathSize(L1(0, 0, 0));
    NotOut(t.mem, t.pml4, t.pool, t.tree, frames, {L4} + PathTo(L1(0, 0, 0)) + {L3(1)});
    Served(r.Some?, t.stingy, [], t.refusals, t.pool);
    LookupExtends(t1, p1, t.tree, t.pool, L1(0, 0, 0));
  }

  /** A cache that knows the lowest table of page 0, and a walk that stops right below another top-level entry: the
      flag of the lowest level stays set and is wrong, though the cache is still right from the top down. */
  method FlagLeftBehind(frames: set<Pfn>) returns (t: PageTable, before: Cache, after: Cache)
    requires |frames| > 5
    ensures fresh(t) && t.Valid() && Coherent(t.mem, t.pml4, before) && Coherent(t.mem, t.pml4, after)
    ensures CoherentEach(t.mem, t.pml4, before) && !CoherentEach(t.mem, t.pml4, after)
  {
    hide Flat, Logged, Sound, Extends, Resolve, CoherentEach, LeafNode, Honest;
    var pml1;
    t, pml1 := TwoTops(frames);
    FirstLeaf();
    before := CACHE_CREATE.(pml1 := pml1, pml1Valid := true);
    CoherentEachShape(t.mem, t.pml4, t.pool, t.tree, before);
    var ok;
    ok, after := t.Traverse(before, 0x80_0000_0000, NONE);
  }

  /** A table with page 0 mapped to a frame of its own, and nothing else. */
  method OwnPage(frames: set<Pfn>, own: Pfn, flags: Flags) returns (t: PageTable, ghost f0: FlatMap)
    requires |frames| > 4 && own !in frames && flags.present && flags.owned
    ensures fresh(t) && t.Valid() && t.Accounts() && !t.stingy && t.refusals == []
    ensures Blank(f0) && t.View() == f0[0 := MapEntry(flags, own, CALLBACK_NONE)] && LeafNode(PageAt(0, 0)) in t.tree.shape
    ensures t.ledger.lost == {} && t.ledger.pending == {} && t.ledger.total == frames + {own}
  {
    hide Accounted, Logged, Sound, Flat, Blank, MappedPrefix, Handover, PageAt, Grew, MapEntry, LeafNode, Honest;
    t := new PageTable(false);
    var ok := t.Init(frames);
    f0 := t.View();
    ghost var l0, t0, pool0 := t.ledger, t.tree, t.pool;
    OneFrame(own, frames);
    ghost var done;
    ok, done := t.Map(0, own * PAGE_SIZE, 1, flags, CALLBACK_NONE);
    FirstMapped(f0, l0, t.View(), t.ledger, own, done, flags);
    FirstServed(t.mem, t.pml4, t0, pool0, t.tree, t.pool, 0, done, frames);
    GrewLeaf(t0, pool0, t.tree, t.pool, 0, 1, 1, 0);
    FirstLedger(f0, l0, t.View(), t.ledger, own, flags);
  }

  lemma GrewLeaf(t0: Tree, pool0: set<Pfn>, t: Tree, pool: set<Pfn>, addr: Addr, tried: nat, done: nat, i: nat)
    requires Grew(t0, pool0, t, pool, addr, tried, done) && i < done
    ensures LeafNode(PageAt(addr, i)) in t.shape
  {
    hide OnPaths, LeafNode, PageAt;
  }

  lemma FirstLedger(f0: FlatMap, l0: Ledger, f: FlatMap, l: Ledger, p: Pfn, flags: Flags)
    requires Blank(f0) && MappedPrefix(f0, l0, f, l, 0, FramesFrom(p * PAGE_SIZE, 1), 1, flags, CALLBACK_NONE)
    requires flags.owned
    ensures l.lost == l0.lost && l.pending == l0.pending && l.total == l0.total + {p}
  {
    hide MapRange;
    FirstFrame(p);
    assert FramesFrom(p * PAGE_SIZE, 1)[..1] == [p];
    assert OwnedIn(f0, 0, 1) == {};
  }

  lemma ResolveSound(mem: Memory, root: Pfn, pool: set<Pfn>, t: Tree, n: Node)
    requires Sound(mem, root, pool, t)
    ensures Resolve(mem, root, n) == Lookup(t.shape, n)
  {
    ResolveIsShape(mem, root, t.shape, t.place, n);
  }

  lemma FirstLeaf()
    ensures LeafNode(PageOf(0)) == L1(0, 0, 0)
    ensures AddrToIndex(0x80_0000_0000, 4) == 1 && AddrToIndex(0x80_0000_0000, 3) == 0
  {}
}
