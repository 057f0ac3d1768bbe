/** Book-keeping of physical frames: who is responsible for each frame a page table ever took over. */
module FrameLedger {
  import opened Common
  import opened PageTree

  /**
   owners: the page whose leaf entry owns the frame; lost: frames whose owning entry was overwritten or dropped
   without a free; pending: frames waiting in the batching buffer; total: every frame the allocator and the
   table share.
   */
  datatype Ledger = Ledger(owners: map<Pfn, Vpn>, lost: set<Pfn>, pending: set<Pfn>, total: set<Pfn>)
  {
    /** Each shared frame has exactly one role: a level, an owned leaf, lost, buffered, or free. */
    ghost predicate Balanced(levels: set<Pfn>, pool: set<Pfn>) {
      && levels !! owners.Keys !! lost !! pending !! pool
      && total == levels + owners.Keys + lost + pending + pool
    }

    /** The owner of a frame is given up: the frame is lost. */
    function Drop(p: Pfn): Ledger { this.(owners := owners - {p}, lost := lost + {p}) }

    /** A frame is handed over together with an owning leaf entry for page v. */
    function Adopt(p: Pfn, v: Vpn): Ledger { this.(owners := owners[p := v], total := total + {p}) }
  }

  ghost predicate Blank(f: FlatMap) { forall v: Vpn :: v in f && f[v] == ZERO }

  /** The owners are exactly the pages whose leaf entry has the owned flag. */
  ghost predicate Owning(flat: FlatMap, owners: map<Pfn, Vpn>) {
    && (forall v: Vpn :: v in flat && (flat[v].Owned() ==> flat[v].pfn in owners && owners[flat[v].pfn] == v))
    && (forall p :: p in owners ==> flat[owners[p]].Owned() && flat[owners[p]].pfn == p)
  }

  ghost predicate Accounted(flat: FlatMap, levels: set<Pfn>, pool: set<Pfn>, l: Ledger) {
    Owning(flat, l.owners) && l.Balanced(levels, pool)
  }

  /** Every frame ever taken was given back once, or is still held. */
  ghost predicate Logged(taken: multiset<Pfn>, freed: multiset<Pfn>, held: set<Pfn>) {
    taken == freed + multiset(held)
  }

  lemma NothingLogged()
    ensures Logged(multiset{}, multiset{}, {})
  {}

  lemma LoggedIs(taken: multiset<Pfn>, freed: multiset<Pfn>, held: set<Pfn>)
    requires Logged(taken, freed, held)
    ensures taken == freed + multiset(held)
  {}

  lemma Taken(taken: multiset<Pfn>, freed: multiset<Pfn>, held: set<Pfn>, p: Pfn)
    requires Logged(taken, freed, held) && p !in held
    ensures Logged(taken + multiset{p}, freed, held + {p})
  {}

  lemma TakenAll(taken: multiset<Pfn>, freed: multiset<Pfn>, held: set<Pfn>, ps: set<Pfn>)
    requires Logged(taken, freed, held) && ps !! held
    ensures Logged(taken + multiset(ps), freed, held + ps)
  {}

  lemma Freed(taken: multiset<Pfn>, freed: multiset<Pfn>, held: set<Pfn>, ps: set<Pfn>)
    requires Logged(taken, freed, held) && ps <= held
    ensures Logged(taken, freed + multiset(ps), held - ps)
  {}

  // ---- rewriting one leaf entry -----------------------------------------------------------------

  /** Owners after the entry of page v changes from e0 to e. */
  function Reown(owners: map<Pfn, Vpn>, e0: Entry, e: Entry, v: Vpn): map<Pfn, Vpn> {
    var rest := if e0.Owned() then owners - {e0.pfn} else owners;
    if e.Owned() then rest[e.pfn := v] else rest
  }

  lemma OwningAfter(flat: FlatMap, owners: map<Pfn, Vpn>, v: Vpn, e: Entry)
    requires Owning(flat, owners)
    requires e.Owned() ==> e.pfn !in Reown(owners, flat[v], ZERO, v)
    ensures Owning(flat[v := e], Reown(owners, flat[v], e, v))
  {}

  /** An owning entry is overwritten: its frame is lost. */
  lemma AccountDrop(flat: FlatMap, levels: set<Pfn>, pool: set<Pfn>, l: Ledger, v: Vpn, e: Entry)
    requires Accounted(flat, levels, pool, l) && flat[v].Owned() && !e.Owned()
    ensures Accounted(flat[v := e], levels, pool, l.Drop(flat[v].pfn))
  {
    OwningAfter(flat, l.owners, v, e);
    assert l.Drop(flat[v].pfn).owners.Keys == l.owners.Keys - {flat[v].pfn};
  }

  lemma AccountAdopt(flat: FlatMap, levels: set<Pfn>, pool: set<Pfn>, l: Ledger, v: Vpn, e: Entry)
    requires Accounted(flat, levels, pool, l) && !flat[v].Owned() && e.Owned() && e.pfn !in l.total
    ensures Accounted(flat[v := e], levels, pool, l.Adopt(e.pfn, v))
  {
    OwningAfter(flat, l.owners, v, e);
    assert l.Adopt(e.pfn, v).owners.Keys == l.owners.Keys + {e.pfn};
  }

  /** Neither the old nor the new entry changes who owns what. */
  lemma AccountKeep(flat: FlatMap, levels: set<Pfn>, pool: set<Pfn>, l: Ledger, v: Vpn, e: Entry)
    requires Accounted(flat, levels, pool, l) && flat[v].Owned() == e.Owned() && (e.Owned() ==> flat[v].pfn == e.pfn)
    ensures Accounted(flat[v := e], levels, pool, l)
  {
    OwningAfter(flat, l.owners, v, e);
    assert Reown(l.owners, flat[v], e, v) == l.owners;
  }

  lemma FreshAccounted(flat: FlatMap, root: Pfn, frames: set<Pfn>)
    requires Blank(flat) && root in frames
    ensures Accounted(flat, {root}, frames - {root}, Ledger(map[], {}, {}, frames))
  {}

  /** Levels taken from the pool only change role. */
  lemma AccountGrow(flat: FlatMap, levels: set<Pfn>, pool: set<Pfn>, levels': set<Pfn>, pool': set<Pfn>, l: Ledger)
    requires Accounted(flat, levels, pool, l) && levels' + pool' == levels + pool && levels' !! pool'
    ensures Accounted(flat, levels', pool', l)
  {}

  /** Overwriting page v: an owning entry loses its frame, an owning new entry brings one along. */
  function Overwrite(l: Ledger, e0: Entry, e: Entry, v: Vpn): Ledger {
    var l0 := if e0.Owned() then l.Drop(e0.pfn) else l;
    if e.Owned() then l0.Adopt(e.pfn, v) else l0
  }

  lemma AccountOverwrite(flat: FlatMap, levels: set<Pfn>, pool: set<Pfn>, l: Ledger, v: Vpn, e: Entry)
    requires Accounted(flat, levels, pool, l) && (e.Owned() ==> e.pfn !in l.total)
    ensures Accounted(flat[v := e], levels, pool, Overwrite(l, flat[v], e, v))
  {
    var l0 := if flat[v].Owned() then l.Drop(flat[v].pfn) else l;
    if flat[v].Owned() {
      AccountDrop(flat, levels, pool, l, v, ZERO);
    } else {
      AccountKeep(flat, levels, pool, l, v, ZERO);
    }
    assert flat[v := ZERO][v := e] == flat[v := e];
    if e.Owned() {
      AccountAdopt(flat[v := ZERO], levels, pool, l0, v, e);
    } else {
      AccountKeep(flat[v := ZERO], levels, pool, l0, v, e);
    }
  }

  function OwnedFrame(e: Entry): set<Pfn> { if e.Owned() then {e.pfn} else {} }

  lemma LogOverwrite(taken: multiset<Pfn>, freed: multiset<Pfn>, pool: set<Pfn>, l: Ledger, e0: Entry, e: Entry, v: Vpn)
    requires Logged(taken, freed, l.total - pool) && pool <= l.total && (e.Owned() ==> e.pfn !in l.total)
    ensures var l' := Overwrite(l, e0, e, v);
      Logged(taken + multiset(OwnedFrame(e)), freed, l'.total - pool) && pool <= l'.total
  {
    if e.Owned() {
      Taken(taken, freed, l.total - pool, e.pfn);
      assert Overwrite(l, e0, e, v).total - pool == (l.total - pool) + {e.pfn};
    }
  }

  function Members(s: seq<Pfn>): set<Pfn> { set x | x in s }

  lemma MultisetGrow(a: set<Pfn>, b: set<Pfn>, c: set<Pfn>)
    requires a <= b <= c
    ensures multiset(c - a) == multiset(b - a) + multiset(c - b)
  {
    assert c - a == (b - a) + (c - b);
  }

  lemma NoMembers()
    ensures Members([]) == {}
  {}

  lemma Append(s: seq<Pfn>, p: Pfn)
    requires Distinct(s) && p !in Members(s)
    ensures Distinct(s + [p]) && Members(s + [p]) == Members(s) + {p}
  {}

  lemma {:induction false} DistinctMultiset(s: seq<Pfn>)
    requires Distinct(s)
    ensures multiset(s) == multiset(Members(s))
  {
    if s == [] {
    } else {
      var rest, last := s[..|s| - 1], s[|s| - 1];
      DistinctMultiset(rest);
      assert s == rest + [last];
      assert Members(s) == Members(rest) + {last};
    }
  }

  lemma LevelsNotFree(flat: FlatMap, levels: set<Pfn>, pool: set<Pfn>, l: Ledger)
    requires Accounted(flat, levels, pool, l)
    ensures levels !! pool && pool <= l.total
  {}

  lemma OwnedRole(flat: FlatMap, levels: set<Pfn>, pool: set<Pfn>, l: Ledger, v: Vpn)
    requires Accounted(flat, levels, pool, l) && flat[v].Owned()
    ensures flat[v].pfn in l.total && flat[v].pfn !in l.pending + pool
    ensures l.pending <= l.total - pool && l.pending + {flat[v].pfn} !! levels
  {}

  /** Clearing an owning entry moves its frame to the buffer or the pool; buffered frames may go along to the pool. */
  function Released(l: Ledger, p: Pfn, pending: set<Pfn>): Ledger {
    Ledger(l.owners - {p}, l.lost, pending, l.total)
  }

  lemma AccountRelease(flat: FlatMap, levels: set<Pfn>, pool: set<Pfn>, l: Ledger, v: Vpn, pool': set<Pfn>,
      pending': set<Pfn>)
    requires Accounted(flat, levels, pool, l) && flat[v].Owned()
    requires pool' + pending' == pool + l.pending + {flat[v].pfn} && pool' !! pending'
    ensures Accounted(flat[v := ZERO], levels, pool', Released(l, flat[v].pfn, pending'))
  {
    OwningAfter(flat, l.owners, v, ZERO);
    assert (l.owners - {flat[v].pfn}).Keys == l.owners.Keys - {flat[v].pfn};
  }

  /** The buffered frames go back to the pool. */
  lemma AccountFlush(flat: FlatMap, levels: set<Pfn>, pool: set<Pfn>, l: Ledger)
    requires Accounted(flat, levels, pool, l)
    ensures Accounted(flat, levels, pool + l.pending, l.(pending := {}))
    ensures l.pending <= l.total - pool && l.pending !! levels
  {}

  /** Exactly the frames gone were given back, since the state with subscript 0. */
  ghost predicate GaveBack(pool0: set<Pfn>, mem0: Memory, freed0: multiset<Pfn>,
      pool: set<Pfn>, mem: Memory, freed: multiset<Pfn>, gone: set<Pfn>)
  {
    pool == pool0 + gone && mem == mem0 - gone && freed == freed0 + multiset(gone)
  }

  lemma GaveNothing(pool: set<Pfn>, mem: Memory, freed: multiset<Pfn>)
    ensures GaveBack(pool, mem, freed, pool, mem, freed, {})
  {}

  lemma GaveBackIs(pool0: set<Pfn>, mem0: Memory, freed0: multiset<Pfn>,
      pool: set<Pfn>, mem: Memory, freed: multiset<Pfn>, gone: set<Pfn>)
    requires GaveBack(pool0, mem0, freed0, pool, mem, freed, gone)
    ensures pool == pool0 + gone && mem == mem0 - gone
  {}

  lemma GiveBackMore(pool0: set<Pfn>, mem0: Memory, freed0: multiset<Pfn>,
      pool: set<Pfn>, mem: Memory, freed: multiset<Pfn>, gone: set<Pfn>,
      pool': set<Pfn>, mem': Memory, freed': multiset<Pfn>, more: set<Pfn>)
    requires GaveBack(pool0, mem0, freed0, pool, mem, freed, gone) && gone <= more
    requires GaveBack(pool, mem, freed, pool', mem', freed', more - gone)
    ensures GaveBack(pool0, mem0, freed0, pool', mem', freed', more)
  {
    assert more == gone + (more - gone);
    MultisetGrow({}, gone, more);
    assert more - {} == more && gone - {} == gone;
  }
}
