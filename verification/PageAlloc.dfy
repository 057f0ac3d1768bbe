/** Memory from the page allocator put behind a range of pages (src/kernel/mem/vmm.c). */
module PageAlloc {
  import opened Common
  import opened PageTree
  import opened PageAddr
  import opened FrameLedger
  import opened TableState
  import opened FlatSpec
  import opened PageTables
  import opened PageQueries

  /** A table at one moment: the flat map, the frames used as levels, the free frames, the accounts, every frame taken
      so far, and how many frames were free at each refusal. */
  datatype Moment = Moment(view: FlatMap, levels: set<Pfn>, pool: set<Pfn>, ledger: Ledger, taken: multiset<Pfn>,
                           refusals: seq<nat>)

  ghost function Now(t: PageTable): Moment
    reads t
  {
    Moment(t.View(), t.tree.place.Keys, t.pool, t.ledger, t.taken, t.refusals)
  }

  // ---- the allocator ------------------------------------------------------------------------------

  /** pmm_alloc_pages: all the frames asked for, or none. */
  method Withdraw(t: PageTable, amount: nat) returns (r: Option<seq<Pfn>>)
    requires t.Valid() && t.Accounts()
    modifies t`pool, t`ledger
    ensures t.Valid() && t.Accounts()
    ensures r.None? <==> |old(t.pool)| < amount
    ensures r.None? ==> t.pool == old(t.pool) && t.ledger == old(t.ledger)
    ensures r.Some? ==> |r.value| == amount && Handover(r.value, t.ledger.total)
    ensures r.Some? ==> Members(r.value) <= old(t.pool) <= old(t.ledger.total) && t.pool == old(t.pool) - Members(r.value)
    ensures r.Some? ==> t.ledger == old(t.ledger).(total := old(t.ledger.total) - Members(r.value))
  {
    hide Accounted, Logged, Sound, Flat, Members, Handover, Honest;
    if |t.pool| < amount { return None; }
    var out: seq<Pfn> := [];
    NothingOut(t.pool, t.ledger.total);
    while |out| < amount
      invariant |out| <= amount && t.Valid() && t.Accounts() && |out| + |t.pool| == |old(t.pool)|
      invariant Handover(out, t.ledger.total) && Members(out) <= old(t.pool) && t.pool == old(t.pool) - Members(out)
      invariant t.ledger == old(t.ledger).(total := old(t.ledger.total) - Members(out))
    {
      var p :| p in t.pool;
      TakeOut(t.mem, t.pml4, t.tree, t.pool, t.ledger, t.taken, t.freed, p);
      OneMoreOut(out, old(t.pool), old(t.ledger.total), p);
      t.pool := t.pool - {p};
      t.ledger := t.ledger.(total := t.ledger.total - {p});
      out := out + [p];
    }
    return Some(out);
  }

  lemma NothingOut(pool: set<Pfn>, total: set<Pfn>)
    ensures Handover([], total) && Members([]) <= pool && pool - Members([]) == pool && total - Members([]) == total
  {}

  lemma OneMoreOut(out: seq<Pfn>, pool: set<Pfn>, total: set<Pfn>, p: Pfn)
    requires Handover(out, total - Members(out)) && Members(out) <= pool <= total && p in pool - Members(out)
    ensures Handover(out + [p], total - Members(out) - {p}) && Members(out + [p]) <= pool
    ensures pool - Members(out + [p]) == pool - Members(out) - {p}
    ensures total - Members(out + [p]) == total - Members(out) - {p}
  {
    Append(out, p);
  }

  lemma TakeOut(mem: Memory, root: Pfn, t: Tree, pool: set<Pfn>, l: Ledger, taken: multiset<Pfn>, freed: multiset<Pfn>,
      p: Pfn)
    requires Sound(mem, root, pool, t) && Accounted(Flat(mem, root), t.place.Keys, pool, l)
    requires Logged(taken, freed, l.total - pool) && p in pool
    ensures p in l.total
    ensures var l', pool' := l.(total := l.total - {p}), pool - {p};
      && Sound(mem, root, pool', t) && Accounted(Flat(mem, root), t.place.Keys, pool', l')
      && Logged(taken, freed, l'.total - pool') && pool' <= l'.total
  {
    hide Flat, WellFormed;
    assert l.total - pool == (l.total - {p}) - (pool - {p});
  }

  /** pmm_free_pages on frames the table never took over. */
  method HandBack(t: PageTable, ps: set<Pfn>)
    requires t.Valid() && t.Accounts() && ps !! t.ledger.total
    modifies t`pool, t`ledger
    ensures t.Valid() && t.Accounts()
    ensures t.pool == old(t.pool) + ps && t.ledger == old(t.ledger).(total := old(t.ledger.total) + ps)
  {
    hide Accounted, Logged, Sound, Flat, Honest;
    PutBack(t.mem, t.pml4, t.tree, t.pool, t.ledger, t.taken, t.freed, ps);
    t.pool := t.pool + ps;
    t.ledger := t.ledger.(total := t.ledger.total + ps);
  }

  lemma PutBack(mem: Memory, root: Pfn, t: Tree, pool: set<Pfn>, l: Ledger, taken: multiset<Pfn>, freed: multiset<Pfn>,
      ps: set<Pfn>)
    requires Sound(mem, root, pool, t) && Accounted(Flat(mem, root), t.place.Keys, pool, l)
    requires Logged(taken, freed, l.total - pool) && ps !! l.total
    ensures var l', pool' := l.(total := l.total + ps), pool + ps;
      && Sound(mem, root, pool', t) && Accounted(Flat(mem, root), t.place.Keys, pool', l')
      && Logged(taken, freed, l'.total - pool') && pool' <= l'.total
  {
    hide Flat, WellFormed;
    assert (l.total + ps) - (pool + ps) == l.total - pool;
  }

  /** Frames that nobody holds on to any more. */
  ghost method Forget(t: PageTable, ps: set<Pfn>)
    requires t.Valid() && t.Accounts() && ps !! t.ledger.total
    modifies t`ledger, t`taken
    ensures t.Valid() && t.Accounts() && t.taken == old(t.taken) + multiset(ps)
    ensures t.ledger == old(t.ledger).(total := old(t.ledger.total) + ps, lost := old(t.ledger.lost) + ps)
  {
    hide Accounted, Logged, Sound, Flat, Honest;
    LoseSight(t.mem, t.pml4, t.tree, t.pool, t.ledger, t.taken, t.freed, ps);
    t.taken := t.taken + multiset(ps);
    t.ledger := t.ledger.(total := t.ledger.total + ps, lost := t.ledger.lost + ps);
  }

  lemma LoseSight(mem: Memory, root: Pfn, t: Tree, pool: set<Pfn>, l: Ledger, taken: multiset<Pfn>, freed: multiset<Pfn>,
      ps: set<Pfn>)
    requires Accounted(Flat(mem, root), t.place.Keys, pool, l) && pool <= l.total
    requires Logged(taken, freed, l.total - pool) && ps !! l.total
    ensures var l' := l.(total := l.total + ps, lost := l.lost + ps);
      && Accounted(Flat(mem, root), t.place.Keys, pool, l')
      && Logged(taken + multiset(ps), freed, l'.total - pool) && pool <= l'.total
  {
    hide Flat, Owning, Logged, Honest;
    assert (l.total + ps) - pool == (l.total - pool) + ps;
    TakenAll(taken, freed, l.total - pool, ps);
  }

  /** vmm_page_table_unmap_with_shootdown: the range is unmapped and cleared, and the frames it owned are free. */
  method Discard(t: PageTable, addr: Addr, amount: nat)
    requires t.Valid() && t.Accounts() && t.ledger.pending == {}
    modifies t
    ensures t.Valid() && t.Accounts() && Total(old(t.View()))
    ensures t.View() == ZeroRange(old(t.View()), addr, amount)
    ensures t.ledger.lost == old(t.ledger.lost) && t.ledger.total == old(t.ledger.total) && t.ledger.pending == {}
    ensures t.pool == old(t.pool) + OwnedIn(old(t.View()), addr, amount)
    ensures t.refusals == old(t.refusals) && t.tree == old(t.tree) && t.taken == old(t.taken)
  {
    hide Accounted, Logged, Sound, Flat, UnmapRange, ClearRange, StaleIn, OwnedIn, Honest;
    FlatTotal(t.mem, t.pml4);
    DiscardZeroes(t.View(), addr, amount);
    t.Unmap(addr, amount);
    t.Clear(addr, amount);
  }

  // ---- one batch ------------------------------------------------------------------------------------

  datatype Outcome = Done | Invalid | Exists | NoFrames | Stopped

  /** All of the levels from before are there, and what left the pool became a level. */
  lemma LevelsGrew(mem0: Memory, root0: Pfn, t0: Tree, pool0: set<Pfn>, mem: Memory, root: Pfn, t: Tree, pool: set<Pfn>)
    requires Sound(mem0, root0, pool0, t0) && Sound(mem, root, pool, t) && Extends(t0, pool0, t, pool)
    ensures t0.place.Keys <= t.place.Keys && pool <= pool0 && pool0 - pool == t.place.Keys - t0.place.Keys
  {
    forall p | p in t0.place ensures p in t.place { assert t.shape[t0.place[p]] == p; }
  }

  /** Frames taken by a mapping: new levels, and the frames of the pages it mapped as owned. */
  lemma TakenGrew(taken0: multiset<Pfn>, total0: set<Pfn>, pool0: set<Pfn>, taken: multiset<Pfn>, total: set<Pfn>,
      pool: set<Pfn>, freed: multiset<Pfn>, added: set<Pfn>)
    requires Logged(taken0, freed, total0 - pool0) && Logged(taken, freed, total - pool)
    requires total == total0 + added && added !! total0 && pool <= pool0 <= total0
    ensures taken == taken0 + multiset(pool0 - pool) + multiset(added)
  {
    assert total - pool == (total0 - pool0) + (pool0 - pool) + added;
  }

  /** Frames from the allocator are offered to a range as owned pages, of which the first done take them. */
  ghost predicate Offered(m0: Moment, m: Moment, addr: Addr, frames: seq<Pfn>, done: nat, flags: Flags, callbackId: nat) {
    && Distinct(frames) && Members(frames) <= m0.pool <= m0.ledger.total
    && m0.levels <= m.levels && m.levels - m0.levels <= m0.pool - Members(frames)
    && m.pool == m0.pool - Members(frames) - (m.levels - m0.levels)
    && MappedPrefix(m0.view, m0.ledger.(total := m0.ledger.total - Members(frames)), m.view, m.ledger,
                    addr, frames, done, flags, callbackId)
    && m.taken == m0.taken + multiset(m.levels - m0.levels) + multiset(Members(frames[..done]))
  }

  /** How many frames are free once the frames are handed out and the levels of m are there. */
  ghost function Left(m0: Moment, m: Moment, frames: seq<Pfn>): nat {
    var n := |m0.pool| - |frames| - |m.levels - m0.levels|;
    if n >= 0 then n else 0
  }

  lemma LeftIs(m0: Moment, m: Moment, addr: Addr, frames: seq<Pfn>, done: nat, flags: Flags, callbackId: nat)
    requires Offered(m0, m, addr, frames, done, flags, callbackId)
    ensures |m.pool| == Left(m0, m, frames)
  {
    hide MappedPrefix, Members;
    DistinctMultiset(frames);
    assert |multiset(frames)| == |frames|;
    assert |multiset(Members(frames))| == |Members(frames)|;
    assert |m0.pool - Members(frames)| == |m0.pool| - |Members(frames)|;
  }

  lemma LeftSame(m0: Moment, m1: Moment, m: Moment, frames: seq<Pfn>)
    requires m.levels == m1.levels
    ensures Left(m0, m, frames) == Left(m0, m1, frames)
  {}

  /** What stops a mapping at page n of a range. */
  ghost predicate Blocked(m0: Moment, m: Moment, addr: Addr, n: nat) {
    Total(m.view) && (m.view[PageAt(addr, n)].Present() || m.refusals == m0.refusals + [|m.pool|])
  }

  method Batch(t: PageTable, addr: Addr, size: nat, flags: Flags, callbackId: nat)
    returns (r: Outcome, frames: seq<Pfn>, ghost done: nat)
    requires t.Valid() && t.Accounts() && flags.owned
    modifies t`mem, t`pool, t`taken, t`refusals, t`tree, t`ledger
    ensures t.Valid() && t.Accounts()
    ensures r.NoFrames? <==> |old(t.pool)| < size
    ensures r.NoFrames? ==> Now(t) == old(Now(t))
    ensures !r.NoFrames? ==> |frames| == size && Offered(old(Now(t)), Now(t), addr, frames, done, flags, callbackId)
    ensures r.Done? ==> done == size && flags.present && t.refusals == old(t.refusals)
    ensures r.Stopped? ==> if flags.present then done < size && Blocked(old(Now(t)), Now(t), addr, done) else done == 0
    ensures r.Done? || r.NoFrames? || r.Stopped?
  {
    hide Accounted, Logged, Sound, Flat, MappedPrefix, Members, Handover, Grew, Extends, LeafNode, PageAt, Offered, Honest;
    frames, done := [], 0;
    ghost var m0, mem0, tree0 := Now(t), t.mem, t.tree;
    var w := Withdraw(t, size);
    if w.None? { return NoFrames, [], 0; }
    frames := w.value;
    FieldsOfFrames(frames);
    FlatTotal(t.mem, t.pml4);
    ghost var m1 := Now(t);
    var ok;
    ok, done := t.MapPages(addr, frames, flags, callbackId);
    GrewExtends(tree0, m1.pool, t.tree, t.pool, addr, if ok then done else done + 1, done);
    LevelsGrew(mem0, t.pml4, tree0, m1.pool, t.mem, t.pml4, t.tree, t.pool);
    OwnedMapped(m0, m1, Now(t), addr, frames, done, flags, callbackId, t.freed);
    r := if ok then Done else Stopped;
  }

  lemma FieldsOfFrames(frames: seq<Pfn>)
    ensures Fields(frames) == frames
  {}

  lemma GrewExtends(t0: Tree, pool0: set<Pfn>, t: Tree, pool: set<Pfn>, addr: Addr, tried: nat, done: nat)
    requires Grew(t0, pool0, t, pool, addr, tried, done)
    ensures Extends(t0, pool0, t, pool)
  {}

  lemma OwnedMapped(m0: Moment, m1: Moment, m: Moment, addr: Addr, frames: seq<Pfn>, done: nat, flags: Flags,
      callbackId: nat, freed: multiset<Pfn>)
    requires Members(frames) <= m0.pool <= m0.ledger.total && flags.owned
    requires m1 == m0.(pool := m0.pool - Members(frames), ledger := m0.ledger.(total := m0.ledger.total - Members(frames)))
    requires MappedPrefix(m1.view, m1.ledger, m.view, m.ledger, addr, frames, done, flags, callbackId)
    requires Handover(frames, m1.ledger.total) && m.pool <= m1.pool && m0.levels <= m.levels
    requires Logged(m1.taken, freed, m1.ledger.total - m1.pool) && Logged(m.taken, freed, m.ledger.total - m.pool)
    requires m1.pool - m.pool == m.levels - m1.levels
    ensures Offered(m0, m, addr, frames, done, flags, callbackId) && done <= |frames|
  {
    hide Logged, MapRange, OwnedIn, Honest;
    assert Members(frames[..done]) !! m1.ledger.total;
    TakenGrew(m1.taken, m1.ledger.total, m1.pool, m.taken, m.ledger.total, m.pool, freed, Members(frames[..done]));
  }

  // ---- a range filled at once -------------------------------------------------------------------------

  /** The accounts after a mapping of owned pages of which done were reached: the frames of absent entries mapped over
      are lost, and the levels and frames used are taken. */
  ghost predicate Charged(m0: Moment, m: Moment, addr: Addr, frames: seq<Pfn>, done: nat) {
    && Total(m0.view) && done <= |frames| && done <= PAGE_LIMIT && Unmapped(m0.view, addr, done)
    && m.ledger.lost == m0.ledger.lost + OwnedIn(m0.view, addr, done)
    && m.ledger.total == m0.ledger.total && m.ledger.pending == m0.ledger.pending
    && m0.levels <= m.levels && m.taken == m0.taken + multiset(m.levels - m0.levels) + multiset(Members(frames[..done]))
  }

  /** Pages of a range led to new frames, in order; or the allocator had too few; or the mapping stopped at a page that
      was present or lacked a level, and the range is empty. */
  ghost predicate Provided(m0: Moment, m: Moment, addr: Addr, amount: nat, flags: Flags, callbackId: nat,
      r: Outcome, frames: seq<Pfn>, done: nat)
  {
    && Charged(m0, m, addr, frames, done) && Distinct(frames) && Members(frames) <= m0.pool
    && match r
       case Done =>
         && flags.present && done == |frames| == amount && m.refusals == m0.refusals
         && m.view == MapRange(m0.view, addr, frames, amount, flags, callbackId)
       case NoFrames => |m0.pool| < amount && done == 0 && m == m0
       case Stopped =>
         && |frames| == amount && m.view == ZeroRange(m0.view, addr, amount) && Members(frames) <= m.pool
         && (flags.present && amount <= PAGE_LIMIT ==>
           done < amount && (m0.view[PageAt(addr, done)].Present() || m.refusals == m0.refusals + [Left(m0, m, frames)]))
       case _ => false
  }

  lemma OfferedAll(m0: Moment, m: Moment, addr: Addr, frames: seq<Pfn>, flags: Flags, callbackId: nat)
    requires Offered(m0, m, addr, frames, |frames|, flags, callbackId) && flags.present && flags.owned
    requires m.refusals == m0.refusals
    ensures Provided(m0, m, addr, |frames|, flags, callbackId, Done, frames, |frames|)
  {
    hide MapRange, OwnedIn;
    assert frames[..|frames|] == frames;
    OfferedAbsent(m0, m, addr, frames, |frames|, flags, callbackId);
  }

  lemma OfferedAbsent(m0: Moment, m: Moment, addr: Addr, frames: seq<Pfn>, done: nat, flags: Flags, callbackId: nat)
    requires Offered(m0, m, addr, frames, done, flags, callbackId)
    ensures Total(m0.view) && done <= PAGE_LIMIT && Unmapped(m0.view, addr, done)
  {
    hide MapRange, OwnedIn, PageAt;
    forall i: nat | i < done ensures !m0.view[PageAt(addr, i)].Present() { OffsetPageAt(addr, i); }
  }

  lemma OfferedNone(m: Moment, addr: Addr, amount: nat, flags: Flags, callbackId: nat)
    requires |m.pool| < amount && Total(m.view)
    ensures Provided(m, m, addr, amount, flags, callbackId, NoFrames, [], 0)
  {}

  /** The frames withdrawn are those mapped and those left over. */
  lemma OfferedSplit(m0: Moment, m: Moment, addr: Addr, frames: seq<Pfn>, done: nat, flags: Flags, callbackId: nat)
    requires Offered(m0, m, addr, frames, done, flags, callbackId) && flags.owned
    ensures done <= |frames| && Members(frames[done..]) !! m.ledger.total && m.ledger.pending == m0.ledger.pending
    ensures m.ledger.total + Members(frames[done..]) == m0.ledger.total
    ensures Members(frames[..done]) + Members(frames[done..]) == Members(frames)
    ensures Total(m0.view) && m.view == MapRange(m0.view, addr, frames, done, flags, callbackId) && done <= PAGE_LIMIT
    ensures m.ledger.lost == m0.ledger.lost + OwnedIn(m0.view, addr, done)
  {
    hide MapRange, OwnedIn;
    assert frames == frames[..done] + frames[done..];
    assert Members(frames) == Members(frames[..done]) + Members(frames[done..]);
    assert Members(frames[..done]) !! Members(frames[done..]);
  }

  /** Discarding the range gives back the frames that were mapped. */
  lemma OfferedBack(m0: Moment, m: Moment, addr: Addr, frames: seq<Pfn>, done: nat, flags: Flags, callbackId: nat)
    requires Offered(m0, m, addr, frames, done, flags, callbackId) && flags.owned
    ensures Total(m0.view) && Total(m.view)
    ensures ZeroRange(m.view, addr, |frames|) == ZeroRange(m0.view, addr, |frames|)
    ensures Members(frames[..done]) <= OwnedIn(m.view, addr, |frames|)
  {
    hide Offset, OwnedIn, MapRange;
    Outside(m0.view, addr, frames, done, flags, callbackId);
    ZeroAfterMap(m0.view, addr, frames, done, flags, callbackId, |frames|);
    OwnedOfMap(m0.view, addr, frames, done, flags, callbackId, done);
    OwnedMore(m.view, addr, done, |frames|);
  }

  lemma OwnedMore(f: FlatMap, addr: Addr, n: nat, m: nat)
    requires Total(f) && n <= m
    ensures OwnedIn(f, addr, n) <= OwnedIn(f, addr, m)
  {
    forall p | p in OwnedIn(f, addr, n) ensures p in OwnedIn(f, addr, m) {
      var v: Vpn :| Offset(addr, v) < n && f[v].Owned() && f[v].pfn == p;
    }
  }

  lemma LeftOver(frames: seq<Pfn>, n: nat, pool: set<Pfn>, total: set<Pfn>)
    requires n <= |frames| && Members(frames[..n]) <= pool <= total && Members(frames[n..]) !! total
    ensures (set p | p in frames && p !in pool) == Members(frames[n..])
  {
    assert frames == frames[..n] + frames[n..];
  }

  /** The page that stopped the mapping was present before, if it is not one of the pages just mapped. */
  lemma StoppedAt(m0: Moment, m: Moment, addr: Addr, frames: seq<Pfn>, done: nat, flags: Flags, callbackId: nat)
    requires Offered(m0, m, addr, frames, done, flags, callbackId) && flags.owned
    requires Blocked(m0, m, addr, done) && done < PAGE_LIMIT
    ensures Total(m0.view) && (m0.view[PageAt(addr, done)].Present() || m.refusals == m0.refusals + [|m.pool|])
  {
    hide OwnedIn, MapRange, Offset, PageAt, Offered, MappedPrefix, Members;
    OfferedSplit(m0, m, addr, frames, done, flags, callbackId);
    OffsetPageAt(addr, done);
    Outside(m0.view, addr, frames, done, flags, callbackId);
  }

  lemma OfferedUndone(m0: Moment, m1: Moment, m: Moment, addr: Addr, frames: seq<Pfn>, done: nat, flags: Flags,
        callbackId: nat)
    requires Offered(m0, m1, addr, frames, done, flags, callbackId) && flags.owned
    requires if flags.present then done < |frames| && Blocked(m0, m1, addr, done) else done == 0
    requires m.view == ZeroRange(m0.view, addr, |frames|) && Members(frames) <= m.pool && m.refusals == m1.refusals
    requires m.levels == m1.levels && m.taken == m1.taken && m.ledger.lost == m1.ledger.lost
    requires m.ledger.total == m0.ledger.total && m.ledger.pending == m0.ledger.pending
    ensures Provided(m0, m, addr, |frames|, flags, callbackId, Stopped, frames, done)
  {
    hide OwnedIn, MapRange, ZeroRange, Offset, PageAt, Unmapped, Members, Distinct, Blocked, MappedPrefix, Left;
    OfferedAbsent(m0, m1, addr, frames, done, flags, callbackId);
    OfferedSplit(m0, m1, addr, frames, done, flags, callbackId);
    LeftIs(m0, m1, addr, frames, done, flags, callbackId);
    LeftSame(m0, m1, m, frames);
    if flags.present && done < PAGE_LIMIT { StoppedAt(m0, m1, addr, frames, done, flags, callbackId); }
  }

  /** The failure path of vmm_map_pages, then freeing the frames that are not free yet. */
  method Undo(t: PageTable, addr: Addr, pfns: seq<Pfn>, flags: Flags, callbackId: nat, ghost m0: Moment, ghost done: nat)
    requires t.Valid() && t.Accounts() && m0.ledger.pending == {} && flags.owned
    requires Offered(m0, Now(t), addr, pfns, done, flags, callbackId)
    requires if flags.present then done < |pfns| && Blocked(m0, Now(t), addr, done) else done == 0
    modifies t
    ensures t.Valid() && t.Accounts()
    ensures Provided(m0, Now(t), addr, |pfns|, flags, callbackId, Stopped, pfns, done)
  {
    hide Accounted, Logged, Sound, Flat, MappedPrefix, Members, Offered, Provided, ZeroRange, OwnedIn, PageAt, Blocked,
      Honest;
    ghost var m1 := Now(t);
    OfferedBack(m0, m1, addr, pfns, done, flags, callbackId);
    OfferedSplit(m0, m1, addr, pfns, done, flags, callbackId);
    Discard(t, addr, |pfns|);
    LeftOver(pfns, done, t.pool, t.ledger.total);
    HandBack(t, set p | p in pfns && p !in t.pool);
    OfferedUndone(m0, m1, Now(t), addr, pfns, done, flags, callbackId);
  }

  /** Frames obtained from the allocator are mapped as owned pages. If that fails the range is unmapped and cleared,
      and the frames left over go back. */
  method MapWithdrawn(t: PageTable, addr: Addr, amount: nat, flags: Flags, callbackId: nat)
    returns (r: Outcome, ghost frames: seq<Pfn>, ghost done: nat)
    requires t.Valid() && t.Accounts() && t.ledger.pending == {} && flags.owned
    modifies t
    ensures t.Valid() && t.Accounts()
    ensures Provided(old(Now(t)), Now(t), addr, amount, flags, callbackId, r, frames, done)
    ensures r.Done? ==> |frames| == amount && forall i: nat :: i < amount ==> (
      var e := t.View()[PageAt(addr, i)];
      && e.flags == flags && e.pfn == frames[i] && !e.pinned
      && e.lowCallbackId < 2 && e.lowCallbackId + 2 * e.highCallbackId == callbackId)
  {
    hide Accounted, Logged, Sound, Flat, MappedPrefix, Members, Offered, Provided, ZeroRange, OwnedIn, PageAt, Blocked,
      Honest;
    FlatTotal(t.mem, t.pml4);
    ghost var m0 := Now(t);
    var pfns;
    r, pfns, done := Batch(t, addr, amount, flags, callbackId);
    frames := pfns;
    if r.NoFrames? {
      OfferedNone(m0, addr, amount, flags, callbackId);
      frames, done := [], 0;
    } else if r.Done? {
      OfferedAll(m0, Now(t), addr, pfns, flags, callbackId);
      OfferedShows(m0, Now(t), addr, pfns, amount, flags, callbackId);
    } else {
      Undo(t, addr, pfns, flags, callbackId, m0, done);
    }
  }

  lemma OfferedShows(m0: Moment, m: Moment, addr: Addr, frames: seq<Pfn>, done: nat, flags: Flags, callbackId: nat)
    requires Offered(m0, m, addr, frames, done, flags, callbackId)
    ensures done <= |frames| && Total(m.view) && forall i: nat :: i < done ==> (
      var e := m.view[PageAt(addr, i)];
      && e.flags == flags && e.pfn == frames[i] && !e.pinned
      && e.lowCallbackId < 2 && e.lowCallbackId + 2 * e.highCallbackId == callbackId)
  {
    hide MappedPrefix, PageAt;
    MappedShows(m0.view, m0.ledger.(total := m0.ledger.total - Members(frames)), m.view, m.ledger, addr, frames, done, flags,
      callbackId);
  }

  // ---- a range filled in batches: vmm_alloc -------------------------------------------------------------

  const MAX_BATCH_SIZE := 64

  /** The next batch goes on where the last one ended. */
  lemma OfferedMore(m0: Moment, m1: Moment, m: Moment, addr: Addr, frames: seq<Pfn>, cursor: Addr, batch: seq<Pfn>, n: nat,
      flags: Flags, callbackId: nat)
    requires Offered(m0, m1, addr, frames, |frames|, flags, callbackId) && flags.present && flags.owned
    requires cursor == (addr + |frames| * PAGE_SIZE) % ADDR_LIMIT
    requires Offered(m1, m, cursor, batch, n, flags, callbackId)
    ensures Offered(m0, m, addr, frames + batch, |frames| + n, flags, callbackId)
  {
    hide MappedPrefix, Members, Distinct;
    PrefixBound(m1, m, cursor, batch, n, flags, callbackId);
    MapAppend(m0.view, m0.ledger.(total := m0.ledger.total - Members(frames)), m1.view, m1.ledger, m.view, m.ledger,
      addr, frames, cursor, batch, n, flags, callbackId);
    Joined(frames, batch, n);
    assert m0.ledger.total - Members(frames) - Members(batch) == m0.ledger.total - Members(frames + batch);
    assert m.levels - m0.levels == (m.levels - m1.levels) + (m1.levels - m0.levels);
  }

  lemma Joined(frames: seq<Pfn>, batch: seq<Pfn>, n: nat)
    requires Distinct(frames) && Distinct(batch) && Members(frames) !! Members(batch) && n <= |batch|
    ensures Distinct(frames + batch) && Members(frames + batch) == Members(frames) + Members(batch)
    ensures multiset(Members((frames + batch)[..|frames| + n]))
      == multiset(Members(frames[..|frames|])) + multiset(Members(batch[..n]))
  {
    assert forall i :: 0 <= i < |frames| ==> frames[i] in Members(frames);
    assert forall i :: 0 <= i < |batch| ==> batch[i] in Members(batch);
    assert frames[..|frames|] == frames && (frames + batch)[..|frames| + n] == frames + batch[..n];
    assert Members(frames + batch[..n]) == Members(frames) + Members(batch[..n]);
    assert Members(frames) !! Members(batch[..n]);
  }

  lemma PrefixBound(m0: Moment, m: Moment, addr: Addr, frames: seq<Pfn>, n: nat, flags: Flags, callbackId: nat)
    requires Offered(m0, m, addr, frames, n, flags, callbackId)
    ensures n <= |frames|
  {}

  /** The first done pages lead to the frames, except that the first undone of them were discarded again, and nobody
      has the frames after them. */
  ghost predicate Laid(m0: Moment, m: Moment, addr: Addr, frames: seq<Pfn>, done: nat, undone: nat, flags: Flags) {
    && Total(m0.view) && done <= |frames| && done <= PAGE_LIMIT && Distinct(frames) && Members(frames) <= m0.pool
    && m.view == ZeroRange(MapRange(m0.view, addr, frames, done, flags, CALLBACK_NONE), addr, undone)
    && m.ledger.lost == m0.ledger.lost + OwnedIn(m0.view, addr, done) + Members(frames[done..])
    && m.ledger.total == m0.ledger.total && m.ledger.pending == m0.ledger.pending
    && m0.levels <= m.levels && m.taken == m0.taken + multiset(m.levels - m0.levels) + multiset(Members(frames))
  }

  /** How far vmm_alloc got with a range of unmapped pages. A failure discards the whole batches before it; the pages
      of the batch it met stay mapped, and the frames of that batch which were not mapped are lost. */
  ghost predicate Filled(m0: Moment, m: Moment, addr: Addr, amount: nat, flags: Flags, r: Outcome, frames: seq<Pfn>,
        done: nat)
  {
    && |frames| <= amount
    && Laid(m0, m, addr, frames, done, if r.Done? then 0 else done - done % 64, flags)
    && match r
       case Done => done == |frames| == amount && m.refusals == m0.refusals
       case NoFrames =>
         && done == |frames| && done % 64 == 0 && m.refusals == m0.refusals
         && Left(m0, m, frames) < 64 && done + Left(m0, m, frames) < amount && (done == 0 ==> |m.levels - m0.levels| == 0)
       case Stopped => done < |frames| && (amount <= PAGE_LIMIT ==> m.refusals == m0.refusals + [Left(m0, m, frames)])
       case _ => false
  }

  /** A part of an offer is discarded, and its rest forgotten. */
  lemma LaidBack(m0: Moment, m1: Moment, m: Moment, addr: Addr, frames: seq<Pfn>, done: nat, undone: nat, flags: Flags)
    requires Offered(m0, m1, addr, frames, done, flags, CALLBACK_NONE) && flags.owned && done <= |frames|
    requires Total(m1.view) && m.view == ZeroRange(m1.view, addr, undone) && m.levels == m1.levels
    requires m.taken == m1.taken + multiset(Members(frames[done..]))
    requires m.ledger.lost == m1.ledger.lost + Members(frames[done..])
    requires m.ledger.total == m1.ledger.total + Members(frames[done..]) && m.ledger.pending == m1.ledger.pending
    ensures Laid(m0, m, addr, frames, done, undone, flags)
  {
    hide OwnedIn, MapRange, ZeroRange, Distinct, Members, MappedPrefix;
    OfferedSplit(m0, m1, addr, frames, done, flags, CALLBACK_NONE);
    SplitDisjoint(frames, done);
  }

  lemma FilledAll(m0: Moment, m: Moment, addr: Addr, frames: seq<Pfn>, flags: Flags)
    requires Offered(m0, m, addr, frames, |frames|, flags, CALLBACK_NONE) && flags.owned && m.refusals == m0.refusals
    ensures Filled(m0, m, addr, |frames|, flags, Done, frames, |frames|)
  {
    hide OwnedIn, MapRange, ZeroRange, Distinct, Members, MappedPrefix, Laid;
    WholeSeq(frames);
    OfferedSplit(m0, m, addr, frames, |frames|, flags, CALLBACK_NONE);
    Outside(m0.view, addr, frames, |frames|, flags, CALLBACK_NONE);
    ZeroNone(m.view, addr);
    LaidBack(m0, m, m, addr, frames, |frames|, 0, flags);
  }

  lemma ZeroNone(f: FlatMap, addr: Addr)
    requires Total(f)
    ensures ZeroRange(f, addr, 0) == f
  {}

  /** The allocator ran out between two batches. */
  lemma FilledShort(m0: Moment, m1: Moment, m: Moment, addr: Addr, amount: nat, frames: seq<Pfn>, flags: Flags)
    requires Offered(m0, m1, addr, frames, |frames|, flags, CALLBACK_NONE) && flags.owned && m.refusals == m0.refusals
    requires |frames| % MAX_BATCH_SIZE == 0 && |m1.pool| + |frames| < amount && |m1.pool| < MAX_BATCH_SIZE
    requires frames == [] ==> |m1.levels - m0.levels| == 0
    requires Total(m1.view) && m.view == ZeroRange(m1.view, addr, |frames|)
    requires m.levels == m1.levels && m.taken == m1.taken
    requires m.ledger.lost == m1.ledger.lost && m.ledger.total == m1.ledger.total && m.ledger.pending == m1.ledger.pending
    ensures Filled(m0, m, addr, amount, flags, NoFrames, frames, |frames|)
  {
    hide OwnedIn, MapRange, ZeroRange, Distinct, Members, MappedPrefix, Laid, Left, Offered;
    WholeSeq(frames);
    OfferedSplit(m0, m1, addr, frames, |frames|, flags, CALLBACK_NONE);
    LaidBack(m0, m1, m, addr, frames, |frames|, |frames|, flags);
    LeftIs(m0, m1, addr, frames, |frames|, flags, CALLBACK_NONE);
    LeftSame(m0, m1, m, frames);
  }

  lemma WholeSeq(frames: seq<Pfn>)
    ensures frames[..|frames|] == frames && Members(frames[|frames|..]) == {}
  {}

  /** A batch was not mapped to its end. */
  lemma FilledPart(m0: Moment, m: Moment, addr: Addr, amount: nat, frames: seq<Pfn>, done: nat, flags: Flags)
    requires Laid(m0, m, addr, frames, done, done - done % MAX_BATCH_SIZE, flags) && done < |frames| <= amount
    requires amount <= PAGE_LIMIT ==> m.refusals == m0.refusals + [Left(m0, m, frames)]
    ensures Filled(m0, m, addr, amount, flags, Stopped, frames, done)
  {}

  lemma SplitDisjoint(frames: seq<Pfn>, n: nat)
    requires Distinct(frames) && n <= |frames|
    ensures multiset(Members(frames)) == multiset(Members(frames[..n])) + multiset(Members(frames[n..]))
  {
    assert frames == frames[..n] + frames[n..];
    assert Members(frames) == Members(frames[..n]) + Members(frames[n..]);
    assert Members(frames[..n]) !! Members(frames[n..]);
  }

  lemma NothingOffered(m: Moment, addr: Addr, flags: Flags)
    requires Total(m.view) && m.pool <= m.ledger.total
    ensures Offered(m, m, addr, [], 0, flags, CALLBACK_NONE)
  {
    assert m.ledger.(total := m.ledger.total - Members([])) == m.ledger;
    MappedNone(m.view, m.ledger, addr, [], flags, CALLBACK_NONE);
  }

  /** On unmapped pages only a refusal stops a batch. */
  lemma NotPresent(m0: Moment, m1: Moment, m: Moment, addr: Addr, amount: nat, frames: seq<Pfn>, cursor: Addr,
        batch: seq<Pfn>,
      n: nat, flags: Flags)
    requires Offered(m0, m, addr, frames + batch, |frames| + n, flags, CALLBACK_NONE)
    requires Blocked(m1, m, cursor, n) && cursor == (addr + |frames| * PAGE_SIZE) % ADDR_LIMIT
    requires Unmapped(m0.view, addr, amount) && |frames| + n < amount <= PAGE_LIMIT
    ensures m.refusals == m1.refusals + [|m.pool|]
  {
    hide OwnedIn, MapRange, PageAt, Offset, Members, Distinct;
    var k := |frames| + n;
    PageShift(addr, cursor, |frames|, n);
    OffsetPageAt(addr, k);
    Outside(m0.view, addr, frames + batch, k, flags, CALLBACK_NONE);
  }

  lemma PageShift(addr: Addr, cursor: Addr, k: nat, n: nat)
    requires cursor == (addr + k * PAGE_SIZE) % ADDR_LIMIT
    ensures PageAt(cursor, n) == PageAt(addr, k + n)
  {
    var q := addr / PAGE_SIZE + k;
    assert (addr + k * PAGE_SIZE) / PAGE_SIZE == q;
    WrappedPage(addr + k * PAGE_SIZE);
    PageOfWrapped(q);
    AddMod(cursor / PAGE_SIZE, q, n);
  }

  lemma AddMod(a: nat, b: nat, n: nat)
    requires a % PAGE_LIMIT == b % PAGE_LIMIT
    ensures (a + n) % PAGE_LIMIT == (b + n) % PAGE_LIMIT
  {}

  lemma BatchStart(mapped: nat, n: nat)
    requires mapped % MAX_BATCH_SIZE == 0 && n < MAX_BATCH_SIZE
    ensures mapped == (mapped + n) - (mapped + n) % MAX_BATCH_SIZE && (mapped + MAX_BATCH_SIZE) % MAX_BATCH_SIZE == 0
  {}

  /** One round of the loop: another batch is in place, or vmm_alloc returns. */
  method Round(t: PageTable, addr: Addr, amount: nat, mapped: nat, flags: Flags, ghost m0: Moment, ghost frames: seq<Pfn>)
    returns (r: Outcome, next: nat, ghost more: seq<Pfn>, ghost done: nat)
    requires t.Valid() && t.Accounts() && t.ledger.pending == {} && t.refusals == m0.refusals && flags.present
    requires flags.owned
    requires Total(m0.view) && Unmapped(m0.view, addr, amount) && m0.ledger.pending == {}
    requires |frames| == mapped < amount && mapped % MAX_BATCH_SIZE == 0
    requires mapped == 0 ==> |t.tree.place.Keys - m0.levels| == 0
    requires Offered(m0, Now(t), addr, frames, mapped, flags, CALLBACK_NONE)
    modifies t
    ensures t.Valid() && t.Accounts()
    ensures mapped < next <= amount && (next == amount || next % MAX_BATCH_SIZE == 0)
    ensures r.Done? ==> |more| == next && Offered(m0, Now(t), addr, more, next, flags, CALLBACK_NONE)
    ensures r.Done? ==> t.ledger.pending == {} && t.refusals == m0.refusals
    ensures !r.Done? ==> Filled(m0, Now(t), addr, amount, flags, r, more, done)
  {
    hide Accounted, Logged, Sound, Flat, MappedPrefix, Members, Offered, Filled, ZeroRange, OwnedIn, PageAt, Blocked,
      Unmapped, Honest;
    var size := if amount - mapped < MAX_BATCH_SIZE then amount - mapped else MAX_BATCH_SIZE;
    next := mapped + size;
    BatchStart(mapped, 0);
    var cursor := (addr + mapped * PAGE_SIZE) % ADDR_LIMIT;
    ghost var m1 := Now(t);
    var batch; ghost var n;
    r, batch, n := Batch(t, cursor, size, flags, CALLBACK_NONE);
    more, done := frames + batch, mapped + n;
    if r.NoFrames? {
      OwnedTotal(t);
      Discard(t, addr, mapped);
      FilledShort(m0, m1, Now(t), addr, amount, frames, flags);
      more, done := frames, mapped;
      return;
    }
    OfferedMore(m0, m1, Now(t), addr, frames, cursor, batch, n, flags, CALLBACK_NONE);
    OfferedSplit(m0, Now(t), addr, more, done, flags, CALLBACK_NONE);
    if r.Stopped? {
      if amount <= PAGE_LIMIT { NotPresent(m0, m1, Now(t), addr, amount, frames, cursor, batch, n, flags); }
      BatchStart(mapped, n);
      GiveUp(t, addr, amount, mapped, flags, m0, more, done);
    }
  }

  /** The loop of vmm_alloc, with the flag that makes the table own the frames. */
  method Fill(t: PageTable, addr: Addr, amount: nat, flags: Flags)
    returns (r: Outcome, ghost frames: seq<Pfn>, ghost done: nat)
    requires t.Valid() && t.Accounts() && t.ledger.pending == {} && flags.present && flags.owned
    requires Total(t.View()) && Unmapped(t.View(), addr, amount)
    modifies t
    ensures t.Valid() && t.Accounts()
    ensures Filled(old(Now(t)), Now(t), addr, amount, flags, r, frames, done)
    ensures r.Done? ==> forall i: nat :: i < amount == |frames| ==> (
      var e := t.View()[PageAt(addr, i)]; e.flags == flags && e.pfn == frames[i] && !e.pinned)
  {
    hide Accounted, Logged, Sound, Flat, MappedPrefix, Members, Offered, Filled, ZeroRange, OwnedIn, PageAt, Unmapped,
      Honest;
    ghost var m0 := Now(t);
    frames, done := [], 0;
    var mapped := 0;
    OwnedTotal(t);
    NothingOffered(m0, addr, flags);
    assert t.tree.place.Keys - m0.levels == {};
    while mapped < amount
      invariant |frames| == mapped <= amount && (mapped == amount || mapped % MAX_BATCH_SIZE == 0)
      invariant mapped == 0 ==> |t.tree.place.Keys - m0.levels| == 0
      invariant t.Valid() && t.Accounts() && t.ledger.pending == {} && t.refusals == m0.refusals
      invariant Offered(m0, Now(t), addr, frames, mapped, flags, CALLBACK_NONE)
    {
      var next;
      r, next, frames, done := Round(t, addr, amount, mapped, flags, m0, frames);
      if !r.Done? { return; }
      mapped := next;
    }
    FilledAll(m0, Now(t), addr, frames, flags);
    OfferedShows(m0, Now(t), addr, frames, amount, flags, CALLBACK_NONE);
    return Done, frames, mapped;
  }

  lemma OwnedTotal(t: PageTable)
    requires t.Valid()
    ensures t.pool <= t.ledger.total && Total(t.View())
  {
    FlatTotal(t.mem, t.pml4);
  }

  /** vmm_alloc returns after a failed mapping: the batches before are discarded, and nothing frees the rest of this one. */
  method GiveUp(t: PageTable, addr: Addr, amount: nat, mapped: nat, flags: Flags, ghost m0: Moment, ghost frames: seq<Pfn>,
      ghost done: nat)
    requires t.Valid() && t.Accounts() && t.ledger.pending == {} && flags.owned
    requires Offered(m0, Now(t), addr, frames, done, flags, CALLBACK_NONE) && done < |frames| <= amount
    requires mapped == done - done % MAX_BATCH_SIZE
    requires amount <= PAGE_LIMIT ==> t.refusals == m0.refusals + [|t.pool|]
    modifies t
    ensures t.Valid() && t.Accounts()
    ensures Filled(m0, Now(t), addr, amount, flags, Stopped, frames, done)
  {
    hide Accounted, Logged, Sound, Flat, MappedPrefix, Members, Offered, Filled, Laid, Left, ZeroRange, OwnedIn, PageAt,
      Honest;
    ghost var m1 := Now(t);
    OfferedSplit(m0, m1, addr, frames, done, flags, CALLBACK_NONE);
    LeftIs(m0, m1, addr, frames, done, flags, CALLBACK_NONE);
    Forget(t, Members(frames[done..]));
    Discard(t, addr, mapped);
    LeftSame(m0, m1, Now(t), frames);
    LaidBack(m0, m1, Now(t), addr, frames, done, mapped, flags);
    FilledPart(m0, Now(t), addr, amount, frames, done, flags);
  }

  /** The table once nothing of the range is mapped: as it was, or with the range discarded if some page was present. */
  ghost function Emptied(m: Moment, addr: Addr, amount: nat): Moment
    requires Total(m.view)
  {
    if Unmapped(m.view, addr, amount) then m
    else m.(view := ZeroRange(m.view, addr, amount), pool := m.pool + OwnedIn(m.view, addr, amount))
  }

  ghost predicate Allocated(m0: Moment, m: Moment, addr: Addr, amount: nat, flags: Flags, exclusive: bool,
      r: Outcome, frames: seq<Pfn>, done: nat)
  {
    && Total(m0.view)
    && (r.Invalid? <==> amount == 0 || !flags.present)
    && (r.Exists? <==> amount > 0 && flags.present && exclusive && !Unmapped(m0.view, addr, amount))
    && if r.Invalid? || r.Exists? then m == m0 && frames == [] && done == 0
       else Filled(Emptied(m0, addr, amount), m, addr, amount, flags.(owned := true), r, frames, done)
  }

  /** Pages mapped before are discarded, unless the caller wanted the range for itself. */
  method Vacate(t: PageTable, addr: Addr, amount: nat, exclusive: bool) returns (ok: bool)
    requires t.Valid() && t.Accounts() && t.ledger.pending == {}
    modifies t
    ensures t.Valid() && t.Accounts() && Total(old(t.View())) && Total(t.View()) && t.tree == old(t.tree)
    ensures !ok <==> exclusive && !Unmapped(old(t.View()), addr, amount)
    ensures !ok ==> Now(t) == old(Now(t))
    ensures ok ==> Unmapped(t.View(), addr, amount)
    ensures ok ==> Now(t) == Emptied(old(Now(t)), addr, amount).(ledger := t.ledger) && t.ledger.pending == {}
    ensures ok ==> t.ledger.lost == old(t.ledger.lost) && t.ledger.total == old(t.ledger.total)
  {
    hide Accounted, Logged, Sound, Flat, ZeroRange, OwnedIn, PageAt, Honest;
    OwnedTotal(t);
    ZeroUnmapped(t.View(), addr, amount);
    var unmapped := IsUnmapped(t, addr, amount);
    if !unmapped {
      if exclusive { return false; }
      Discard(t, addr, amount);
    }
    return true;
  }

  /** vmm_alloc on a range of pages. */
  method Alloc(t: PageTable, addr: Addr, amount: nat, flags: Flags, exclusive: bool)
    returns (r: Outcome, ghost frames: seq<Pfn>, ghost done: nat)
    requires t.Valid() && t.Accounts() && t.ledger.pending == {}
    modifies t
    ensures t.Valid() && t.Accounts()
    ensures Allocated(old(Now(t)), Now(t), addr, amount, flags, exclusive, r, frames, done)
    ensures r.Done? ==> forall i: nat :: i < amount == |frames| ==> (
      var e := t.View()[PageAt(addr, i)]; e.flags == flags.(owned := true) && e.pfn == frames[i] && !e.pinned)
  {
    hide Accounted, Logged, Sound, Flat, Members, Filled, ZeroRange, OwnedIn, PageAt, Unmapped, Emptied, Honest;
    frames, done := [], 0;
    OwnedTotal(t);
    if amount == 0 || !flags.present { return Invalid, [], 0; }
    ghost var m0 := Now(t);
    var ok := Vacate(t, addr, amount, exclusive);
    if !ok { return Exists, [], 0; }
    ghost var m1 := Now(t);
    r, frames, done := Fill(t, addr, amount, flags.(owned := true));
    EmptiedIs(m0, addr, amount);
    FilledFrom(m1, Emptied(m0, addr, amount), Now(t), addr, amount, flags.(owned := true), r, frames, done);
    FilledWell(m1, Now(t), addr, amount, flags.(owned := true), r, frames, done);
  }

  lemma EmptiedIs(m: Moment, addr: Addr, amount: nat)
    requires Total(m.view)
    ensures Emptied(m, addr, amount).ledger == m.ledger && Emptied(m, addr, amount).refusals == m.refusals
  {}

  lemma FilledWell(m0: Moment, m: Moment, addr: Addr, amount: nat, flags: Flags, r: Outcome, frames: seq<Pfn>, done: nat)
    requires Filled(m0, m, addr, amount, flags, r, frames, done)
    ensures r.Done? || r.NoFrames? || r.Stopped?
  {}

  lemma ZeroUnmapped(f: FlatMap, addr: Addr, n: nat)
    requires Total(f)
    ensures Total(ZeroRange(f, addr, n)) && Unmapped(ZeroRange(f, addr, n), addr, n)
  {
    hide PageAt;
    forall i: nat | i < n ensures ZeroRange(f, addr, n)[PageAt(addr, i)] == ZERO { OffsetAtMost(addr, i); }
  }

  lemma OffsetAtMost(addr: Addr, i: nat)
    ensures Offset(addr, PageAt(addr, i)) <= i
  {
    var q := addr / PAGE_SIZE;
    if i >= PAGE_LIMIT { OffsetBound(addr, PageAt(addr, i)); } else { OffsetPageAt(addr, i); }
  }

  /** Who owns what does not matter here. */
  lemma FilledFrom(m1: Moment, m2: Moment, m: Moment, addr: Addr, amount: nat, flags: Flags, r: Outcome, frames: seq<Pfn>,
      done: nat)
    requires Filled(m1, m, addr, amount, flags, r, frames, done)
    requires m2 == m1.(ledger := m2.ledger) && m2.ledger.lost == m1.ledger.lost && m2.ledger.total == m1.ledger.total
    requires m2.ledger.pending == m1.ledger.pending
    ensures Filled(m2, m, addr, amount, flags, r, frames, done)
  {
    hide OwnedIn, MapRange, ZeroRange, Distinct, Members;
  }

  /** After a failed vmm_alloc nothing of the range is mapped just when it failed between two batches, and no frame is
      lost to it just when the allocator ran out. */
  lemma AllocExact(m0: Moment, m: Moment, addr: Addr, amount: nat, flags: Flags, r: Outcome, frames: seq<Pfn>, done: nat)
    requires Filled(m0, m, addr, amount, flags, r, frames, done) && !r.Done? && flags.present && amount <= PAGE_LIMIT
    requires Unmapped(m0.view, addr, amount)
    ensures Total(m.view) && (Unmapped(m.view, addr, amount) <==> done % MAX_BATCH_SIZE == 0)
    ensures Members(frames[done..]) == {} <==> r.NoFrames?
  {
    hide OwnedIn, PageAt;
    var undone := done - done % MAX_BATCH_SIZE;
    forall i: nat | i < amount ensures m.view[PageAt(addr, i)].Present() <==> undone <= i < done { OffsetPageAt(addr, i); }
    if done % MAX_BATCH_SIZE != 0 { assert m.view[PageAt(addr, undone)].Present(); }
    if r.Stopped? { assert frames[done] in Members(frames[done..]); }
  }
}
