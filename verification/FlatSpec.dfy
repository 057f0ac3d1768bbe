/** What mapping, unmapping and clearing a range mean on the flat map. */
module FlatSpec {
  import opened Common
  import opened PageTree
  import opened PageAddr
  import opened FrameLedger

  const CALLBACK_NONE := 255

  ghost predicate Total(f: FlatMap) { forall v: Vpn :: v in f }

  /** The leaf entry a mapping writes; the callback id is split over the entry's low and high bits. */
  function MapEntry(flags: Flags, pfn: Pfn, callbackId: nat): Entry {
    Entry(flags, false, callbackId % 2, pfn, callbackId / 2)
  }

  /** Page i of the range now leads to frame i; every other page is as before. */
  ghost function MapRange(f: FlatMap, addr: Addr, frames: seq<Pfn>, n: nat, flags: Flags, callbackId: nat): FlatMap
    requires Total(f) && n <= |frames|
  {
    imap v: Vpn :: if Offset(addr, v) < n then MapEntry(flags, frames[Offset(addr, v)], callbackId) else f[v]
  }

  /** Frames owned by entries of the first n pages of a range. */
  ghost function OwnedIn(f: FlatMap, addr: Addr, n: nat): set<Pfn>
    requires Total(f)
  {
    set v: Vpn | 0 <= v < PAGE_LIMIT && Offset(addr, v) < n && f[v].Owned() :: f[v].pfn
  }

  /** The frames are not shared with the table or the allocator yet, and are pairwise different. */
  ghost predicate Handover(frames: seq<Pfn>, total: set<Pfn>) {
    Distinct(frames) && forall j :: 0 <= j < |frames| ==> frames[j] !in total
  }

  /** State after the first n pages of a mapping: exactly those pages, all absent before, and their stale frames
      lost. */
  ghost predicate MappedPrefix(f0: FlatMap, l0: Ledger, f: FlatMap, l: Ledger,
      addr: Addr, frames: seq<Pfn>, n: nat, flags: Flags, callbackId: nat)
  {
    && Total(f0) && n <= |frames| && n <= PAGE_LIMIT
    && f == MapRange(f0, addr, frames, n, flags, callbackId)
    && (forall v: Vpn :: Offset(addr, v) < n ==> !f0[v].Present())
    && l.lost == l0.lost + OwnedIn(f0, addr, n) && l.pending == l0.pending
    && l.total == l0.total + (if flags.owned then Members(frames[..n]) else {})
  }

  lemma MappedNone(f0: FlatMap, l0: Ledger, addr: Addr, frames: seq<Pfn>, flags: Flags, callbackId: nat)
    requires Total(f0)
    ensures MappedPrefix(f0, l0, f0, l0, addr, frames, 0, flags, callbackId)
  {}

  lemma OwnedStep(f: FlatMap, addr: Addr, n: nat)
    requires Total(f) && n < PAGE_LIMIT
    ensures OwnedIn(f, addr, n + 1) == OwnedIn(f, addr, n) + OwnedFrame(f[PageAt(addr, n)])
  {
    var v := PageAt(addr, n);
    OffsetPageAt(addr, n);
    forall u: Vpn | Offset(addr, u) == n ensures u == v { PageAtOffset(addr, u); }
    forall q | q in OwnedIn(f, addr, n + 1) ensures q in OwnedIn(f, addr, n) + OwnedFrame(f[v]) {
      var u: Vpn :| Offset(addr, u) < n + 1 && f[u].Owned() && f[u].pfn == q;
    }
    forall q | q in OwnedFrame(f[v]) ensures q in OwnedIn(f, addr, n + 1) {
      assert Offset(addr, v) < n + 1 && f[v].Owned() && f[v].pfn == q;
    }
  }

  lemma MappedOne(f0: FlatMap, l0: Ledger, f: FlatMap, l: Ledger,
      addr: Addr, frames: seq<Pfn>, n: nat, flags: Flags, callbackId: nat)
    requires MappedPrefix(f0, l0, f, l, addr, frames, n, flags, callbackId) && flags.present && n < |frames|
    requires PageAt(addr, n) in f && !f[PageAt(addr, n)].Present()
    ensures var v := PageAt(addr, n); var e := MapEntry(flags, frames[n], callbackId);
      MappedPrefix(f0, l0, f[v := e], Overwrite(l, f[v], e, v), addr, frames, n + 1, flags, callbackId)
  {
    hide Offset, PageAt, OwnedIn;
    var v := PageAt(addr, n);
    var e := MapEntry(flags, frames[n], callbackId);
    OffsetBound(addr, v);
    assert n < PAGE_LIMIT;
    OffsetPageAt(addr, n);
    forall u: Vpn | Offset(addr, u) == n ensures u == v { PageAtOffset(addr, u); }
    OwnedStep(f0, addr, n);
    assert f[v := e] == MapRange(f0, addr, frames, n + 1, flags, callbackId);
    assert frames[..n + 1] == frames[..n] + [frames[n]];
    assert Members(frames[..n + 1]) == Members(frames[..n]) + {frames[n]};
  }

  /** What a mapped page shows: the frame it was given, with the flags asked for and the callback id. */
  lemma MappedShows(f0: FlatMap, l0: Ledger, f: FlatMap, l: Ledger,
      addr: Addr, frames: seq<Pfn>, n: nat, flags: Flags, callbackId: nat)
    requires MappedPrefix(f0, l0, f, l, addr, frames, n, flags, callbackId)
    ensures n <= |frames|
    ensures Total(f) && forall i: nat :: i < n ==> (
      var e := f[PageAt(addr, i)];
      && e.flags == flags && e.pfn == frames[i] && !e.pinned
      && e.lowCallbackId < 2 && e.lowCallbackId + 2 * e.highCallbackId == callbackId)
  {
    hide PageAt;
    forall i: nat | i < n ensures f[PageAt(addr, i)] == MapEntry(flags, frames[i], callbackId) { OffsetPageAt(addr, i); }
  }

  /** The physical address behind a virtual one: page_table_get_phys_addr. */
  ghost function Translate(f: FlatMap, addr: Addr): Option<nat>
    requires Total(f)
  {
    var e := f[PageOf(addr)];
    if e.Present() then Some(e.pfn * PAGE_SIZE + addr % PAGE_SIZE) else None
  }

  // ---- unmapping and clearing -------------------------------------------------------------------

  function Hidden(e: Entry): Entry { if e.Present() then e.(flags := e.flags.(present := false)) else e }

  function Cleared(e: Entry): Entry { if e.Present() then e else ZERO }

  ghost function UnmapRange(f: FlatMap, addr: Addr, n: nat): FlatMap
    requires Total(f)
  {
    imap v: Vpn :: if Offset(addr, v) < n then Hidden(f[v]) else f[v]
  }

  ghost function ClearRange(f: FlatMap, addr: Addr, n: nat): FlatMap
    requires Total(f)
  {
    imap v: Vpn :: if Offset(addr, v) < n then Cleared(f[v]) else f[v]
  }

  /** What the pages of an unmapped range and those of a cleared range show. */
  lemma UnmapShows(f: FlatMap, addr: Addr, n: nat)
    requires Total(f)
    ensures forall v: Vpn ::
      UnmapRange(f, addr, n)[v] == if Offset(addr, v) < n then f[v].(flags := f[v].flags.(present := false)) else f[v]
  {}

  lemma ClearShows(f: FlatMap, addr: Addr, n: nat)
    requires Total(f)
    ensures forall v: Vpn ::
      ClearRange(f, addr, n)[v] ==
        if Offset(addr, v) < n && !f[v].flags.present then Entry(NONE, false, 0, 0, 0) else f[v]
  {}

  lemma UnmapNone(f: FlatMap, addr: Addr)
    requires Total(f)
    ensures UnmapRange(f, addr, 0) == f && ClearRange(f, addr, 0) == f
  {}

  lemma UnmapOne(f: FlatMap, addr: Addr, n: nat)
    requires Total(f)
    ensures var v, g := PageAt(addr, n), UnmapRange(f, addr, n);
      g[v := Hidden(g[v])] == UnmapRange(f, addr, n + 1)
  {
    PageOnce(addr, n);
  }

  lemma ClearOne(f: FlatMap, addr: Addr, n: nat)
    requires Total(f)
    ensures var v, g := PageAt(addr, n), ClearRange(f, addr, n);
      g[v := Cleared(g[v])] == ClearRange(f, addr, n + 1)
  {
    PageOnce(addr, n);
  }

  /** The pages at offset at most n are those before n and page n itself, also after the numbers wrapped. */
  lemma PageOnce(addr: Addr, n: nat)
    ensures forall u: Vpn :: Offset(addr, u) < n + 1 <==> Offset(addr, u) < n || u == PageAt(addr, n)
  {
    if n < PAGE_LIMIT {
      OffsetPageAt(addr, n);
      forall u: Vpn | Offset(addr, u) == n ensures u == PageAt(addr, n) { PageAtOffset(addr, u); }
    }
  }

  /** Frames released by clearing: owned by entries of the range that are not present. */
  ghost function StaleIn(f: FlatMap, addr: Addr, n: nat): set<Pfn>
    requires Total(f)
  {
    set v: Vpn | 0 <= v < PAGE_LIMIT && Offset(addr, v) < n && f[v].Owned() && !f[v].Present() :: f[v].pfn
  }

  lemma StaleNone(f: FlatMap, addr: Addr)
    requires Total(f)
    ensures StaleIn(f, addr, 0) == {}
  {}

  /** Page n after the first n were cleared: untouched, or cleared before, when it holds nothing stale. */
  lemma ClearedBefore(f: FlatMap, addr: Addr, n: nat)
    requires Total(f)
    ensures var v := PageAt(addr, n); var e := ClearRange(f, addr, n)[v];
      && (e.Present() <==> f[v].Present())
      && StaleIn(f, addr, n) + (if e.Present() then {} else OwnedFrame(e))
         == StaleIn(f, addr, n) + (if f[v].Present() then {} else OwnedFrame(f[v]))
  {
    var v := PageAt(addr, n);
    if Offset(addr, v) < n && f[v].Owned() && !f[v].Present() {
      assert f[v].pfn in StaleIn(f, addr, n);
    }
  }

  lemma StaleStep(f: FlatMap, addr: Addr, n: nat)
    requires Total(f)
    ensures var v := PageAt(addr, n);
      StaleIn(f, addr, n + 1) == StaleIn(f, addr, n) + (if f[v].Present() then {} else OwnedFrame(f[v]))
  {
    PageOnce(addr, n);
    var v := PageAt(addr, n);
    var last := if f[v].Present() then {} else OwnedFrame(f[v]);
    forall q | q in StaleIn(f, addr, n + 1) ensures q in StaleIn(f, addr, n) + last {
      var u: Vpn :| Offset(addr, u) < n + 1 && f[u].Owned() && !f[u].Present() && f[u].pfn == q;
    }
    if f[v].Owned() && !f[v].Present() {
      assert Offset(addr, v) < n + 1 && f[v].pfn in StaleIn(f, addr, n + 1);
    }
  }

  ghost predicate Unmapped(f: FlatMap, addr: Addr, n: nat)
    requires Total(f)
  {
    forall i: nat :: i < n ==> !f[PageAt(addr, i)].Present()
  }

  // ---- unmapping and clearing together ---------------------------------------------------------------

  ghost function ZeroRange(f: FlatMap, addr: Addr, n: nat): FlatMap
    requires Total(f)
  {
    imap v: Vpn :: if Offset(addr, v) < n then ZERO else f[v]
  }

  lemma DiscardZeroes(f: FlatMap, addr: Addr, n: nat)
    requires Total(f)
    ensures Total(UnmapRange(f, addr, n))
    ensures ClearRange(UnmapRange(f, addr, n), addr, n) == ZeroRange(f, addr, n)
    ensures StaleIn(UnmapRange(f, addr, n), addr, n) == OwnedIn(f, addr, n)
  {
    var g := UnmapRange(f, addr, n);
    assert forall v: Vpn :: Offset(addr, v) < n ==> !g[v].Present() && g[v].Owned() == f[v].Owned() && g[v].pfn == f[v].pfn;
    assert StaleIn(g, addr, n) == OwnedIn(f, addr, n);
  }

  /** Discarding a range leaves no trace of a mapping inside it. */
  lemma ZeroAfterMap(f: FlatMap, addr: Addr, frames: seq<Pfn>, n: nat, flags: Flags, callbackId: nat, m: nat)
    requires Total(f) && n <= |frames| && n <= m
    ensures ZeroRange(MapRange(f, addr, frames, n, flags, callbackId), addr, m) == ZeroRange(f, addr, m)
  {}

  /** The frames a discarded part of a mapping gives back. */
  lemma OwnedOfMap(f: FlatMap, addr: Addr, frames: seq<Pfn>, n: nat, flags: Flags, callbackId: nat, m: nat)
    requires Total(f) && m <= n <= |frames| && n <= PAGE_LIMIT && flags.owned
    ensures OwnedIn(MapRange(f, addr, frames, n, flags, callbackId), addr, m) == Members(frames[..m])
  {
    hide Offset, PageAt;
    var g := MapRange(f, addr, frames, n, flags, callbackId);
    forall p | p in Members(frames[..m]) ensures p in OwnedIn(g, addr, m) {
      var j :| 0 <= j < m && frames[j] == p;
      OffsetPageAt(addr, j);
      assert g[PageAt(addr, j)].Owned() && g[PageAt(addr, j)].pfn == p;
    }
  }

  lemma OffsetShift(addr: Addr, cursor: Addr, k: nat, v: Vpn)
    requires cursor == (addr + k * PAGE_SIZE) % ADDR_LIMIT
    ensures Offset(cursor, v) == (Offset(addr, v) - k) % PAGE_LIMIT
  {
    var q := addr / PAGE_SIZE + k;
    assert (addr + k * PAGE_SIZE) / PAGE_SIZE == q;
    WrappedPage(addr + k * PAGE_SIZE);
    PageOfWrapped(q);
    SubMod(v, cursor / PAGE_SIZE, q);
    SubShift(v, addr / PAGE_SIZE, k);
  }

  lemma SubMod(v: nat, a: nat, b: nat)
    requires a % PAGE_LIMIT == b % PAGE_LIMIT
    ensures (v - a) % PAGE_LIMIT == (v - b) % PAGE_LIMIT
  {}

  lemma SubShift(v: nat, a: nat, k: nat)
    ensures (v - (a + k)) % PAGE_LIMIT == ((v - a) % PAGE_LIMIT - k) % PAGE_LIMIT
  {}

  /** The pages from page k of a range on. */
  lemma Shifted(addr: Addr, cursor: Addr, k: nat, n: nat, v: Vpn)
    requires cursor == (addr + k * PAGE_SIZE) % ADDR_LIMIT && k + n <= PAGE_LIMIT
    ensures Offset(cursor, v) < n <==> k <= Offset(addr, v) < k + n
    ensures Offset(cursor, v) < n ==> Offset(cursor, v) == Offset(addr, v) - k
  {
    OffsetBound(addr, v);
    OffsetShift(addr, cursor, k, v);
  }

  /** A mapping that goes on where another ended does not come round to its first page. */
  lemma NotAround(f0: FlatMap, l0: Ledger, f: FlatMap, l: Ledger, f': FlatMap, l': Ledger, l1: Ledger,
      addr: Addr, frames: seq<Pfn>, cursor: Addr, batch: seq<Pfn>, n: nat, flags: Flags, callbackId: nat)
    requires MappedPrefix(f0, l0, f, l, addr, frames, |frames|, flags, callbackId) && flags.present
    requires cursor == (addr + |frames| * PAGE_SIZE) % ADDR_LIMIT
    requires MappedPrefix(f, l1, f', l', cursor, batch, n, flags, callbackId)
    ensures |frames| + n <= PAGE_LIMIT
  {
    hide Offset, OwnedIn, Members, PageAt;
    var k, v := |frames|, PageAt(addr, 0);
    OffsetPageAt(addr, 0);
    OffsetShift(addr, cursor, k, v);
    assert k > 0 ==> f[v].Present();
    assert k > 0 ==> Offset(cursor, v) >= n;
    NegMod(k);
  }

  lemma NegMod(k: nat)
    requires 0 <= k <= PAGE_LIMIT
    ensures (0 - k) % PAGE_LIMIT <= PAGE_LIMIT - k
  {}

  lemma OwnedAppend(f0: FlatMap, f: FlatMap, addr: Addr, cursor: Addr, k: nat, n: nat)
    requires Total(f0) && Total(f) && (forall v: Vpn :: Offset(addr, v) >= k ==> f[v] == f0[v])
    requires cursor == (addr + k * PAGE_SIZE) % ADDR_LIMIT && k + n <= PAGE_LIMIT
    ensures OwnedIn(f0, addr, k + n) == OwnedIn(f0, addr, k) + OwnedIn(f, cursor, n)
  {
    hide Offset;
    forall v: Vpn ensures Offset(cursor, v) < n <==> k <= Offset(addr, v) < k + n { Shifted(addr, cursor, k, n, v); }
    forall p | p in OwnedIn(f0, addr, k + n) ensures p in OwnedIn(f0, addr, k) + OwnedIn(f, cursor, n) {
      var v: Vpn :| Offset(addr, v) < k + n && f0[v].Owned() && f0[v].pfn == p;
      if Offset(addr, v) >= k { assert Offset(cursor, v) < n && f[v].Owned() && f[v].pfn == p; }
    }
  }

  lemma ViewAppend(f0: FlatMap, f: FlatMap, f': FlatMap, addr: Addr, frames: seq<Pfn>, cursor: Addr, batch: seq<Pfn>,
        n: nat,
      flags: Flags, callbackId: nat)
    requires Total(f0) && f == MapRange(f0, addr, frames, |frames|, flags, callbackId) && n <= |batch|
    requires cursor == (addr + |frames| * PAGE_SIZE) % ADDR_LIMIT && |frames| + n <= PAGE_LIMIT
    requires f' == MapRange(f, cursor, batch, n, flags, callbackId)
    ensures f' == MapRange(f0, addr, frames + batch, |frames| + n, flags, callbackId)
  {
    hide Offset, MapEntry;
    var k, g := |frames|, MapRange(f0, addr, frames + batch, |frames| + n, flags, callbackId);
    forall v: Vpn ensures f'[v] == g[v] {
      Shifted(addr, cursor, k, n, v);
    }
  }

  lemma Outside(f: FlatMap, addr: Addr, frames: seq<Pfn>, n: nat, flags: Flags, callbackId: nat)
    requires Total(f) && n <= |frames|
    ensures var g := MapRange(f, addr, frames, n, flags, callbackId);
      Total(g) && forall v: Vpn :: Offset(addr, v) >= n ==> g[v] == f[v]
  {}

  lemma AbsentAppend(f0: FlatMap, f: FlatMap, addr: Addr, cursor: Addr, k: nat, n: nat)
    requires Total(f0) && Total(f) && (forall v: Vpn :: Offset(addr, v) >= k ==> f[v] == f0[v])
    requires forall v: Vpn :: Offset(addr, v) < k ==> !f0[v].Present()
    requires forall v: Vpn :: Offset(cursor, v) < n ==> !f[v].Present()
    requires cursor == (addr + k * PAGE_SIZE) % ADDR_LIMIT && k + n <= PAGE_LIMIT
    ensures forall v: Vpn :: Offset(addr, v) < k + n ==> !f0[v].Present()
  {
    hide Offset;
    forall v: Vpn | Offset(addr, v) < k + n ensures !f0[v].Present() { Shifted(addr, cursor, k, n, v); }
  }

  lemma MembersAppend(frames: seq<Pfn>, batch: seq<Pfn>, n: nat, total: set<Pfn>)
    requires n <= |batch| && Members(batch) !! Members(frames)
    ensures (total + Members(frames[..|frames|])) - Members(batch) + Members(batch[..n])
      == (total - Members(batch)) + Members((frames + batch)[..|frames| + n])
  {
    assert frames[..|frames|] == frames && (frames + batch)[..|frames| + n] == frames + batch[..n];
    assert Members(frames + batch[..n]) == Members(frames) + Members(batch[..n]);
  }

  /** Two mappings, the second from where the first ended, are one. */
  lemma MapAppend(f0: FlatMap, l0: Ledger, f: FlatMap, l: Ledger, f': FlatMap, l': Ledger,
      addr: Addr, frames: seq<Pfn>, cursor: Addr, batch: seq<Pfn>, n: nat, flags: Flags, callbackId: nat)
    requires MappedPrefix(f0, l0, f, l, addr, frames, |frames|, flags, callbackId) && flags.present && flags.owned
    requires cursor == (addr + |frames| * PAGE_SIZE) % ADDR_LIMIT && Members(batch) !! Members(frames)
    requires MappedPrefix(f, l.(total := l.total - Members(batch)), f', l', cursor, batch, n, flags, callbackId)
    ensures MappedPrefix(f0, l0.(total := l0.total - Members(batch)), f', l', addr, frames + batch, |frames| + n,
                         flags, callbackId)
  {
    hide Offset, OwnedIn, MapRange, Members;
    var k := |frames|;
    NotAround(f0, l0, f, l, f', l', l.(total := l.total - Members(batch)), addr, frames, cursor, batch, n, flags,
      callbackId);
    Outside(f0, addr, frames, k, flags, callbackId);
    OwnedAppend(f0, f, addr, cursor, k, n);
    ViewAppend(f0, f, f', addr, frames, cursor, batch, n, flags, callbackId);
    AbsentAppend(f0, f, addr, cursor, k, n);
    MembersAppend(frames, batch, n, l0.total);
  }

  /** Unmapping and then clearing a range that was mapped over zeroed entries gives back the flat map from before. */
  lemma MapUnmapClear(f: FlatMap, addr: Addr, frames: seq<Pfn>, flags: Flags, callbackId: nat)
    requires Total(f) && flags.present
    requires forall v: Vpn :: Offset(addr, v) < |frames| ==> f[v] == ZERO
    ensures var n := |frames|; var g := MapRange(f, addr, frames, n, flags, callbackId);
      ClearRange(UnmapRange(g, addr, n), addr, n) == f
  {
    var n := |frames|; var g := MapRange(f, addr, frames, n, flags, callbackId);
    var h := ClearRange(UnmapRange(g, addr, n), addr, n);
    assert forall v: Vpn :: h[v] == f[v];
  }

  /** State after the first n pages of a clearing loop; stale frames are freed or wait in the buffer. */
  ghost predicate ClearedPrefix(f0: FlatMap, pool0: set<Pfn>, l0: Ledger, freed0: multiset<Pfn>,
      f: FlatMap, pool: set<Pfn>, l: Ledger, freed: multiset<Pfn>, addr: Addr, n: nat)
  {
    && Total(f0) && f == ClearRange(f0, addr, n)
    && l.lost == l0.lost && l.total == l0.total
    && pool + l.pending == pool0 + StaleIn(f0, addr, n)
    && pool0 <= pool && freed == freed0 + multiset(pool - pool0)
  }

  lemma ClearedNone(f0: FlatMap, pool0: set<Pfn>, l0: Ledger, freed0: multiset<Pfn>, addr: Addr)
    requires Total(f0) && l0.pending == {}
    ensures ClearedPrefix(f0, pool0, l0, freed0, f0, pool0, l0, freed0, addr, 0)
  {
    UnmapNone(f0, addr);
    StaleNone(f0, addr);
  }

  lemma ClearedOne(f0: FlatMap, pool0: set<Pfn>, l0: Ledger, freed0: multiset<Pfn>,
      f: FlatMap, pool: set<Pfn>, l: Ledger, freed: multiset<Pfn>,
      f': FlatMap, pool': set<Pfn>, l': Ledger, freed': multiset<Pfn>, addr: Addr, n: nat)
    requires ClearedPrefix(f0, pool0, l0, freed0, f, pool, l, freed, addr, n) && Total(f)
    requires var v := PageAt(addr, n);
      && f' == f[v := Cleared(f[v])] && l'.lost == l.lost && l'.total == l.total
      && pool' + l'.pending == pool + l.pending + (if f[v].Present() then {} else OwnedFrame(f[v]))
      && pool <= pool' && freed' == freed + multiset(pool' - pool)
    ensures ClearedPrefix(f0, pool0, l0, freed0, f', pool', l', freed', addr, n + 1)
  {
    hide ClearRange, StaleIn, PageAt;
    ClearOne(f0, addr, n);
    StaleStep(f0, addr, n);
    ClearedBefore(f0, addr, n);
    MultisetGrow(pool0, pool, pool');
  }

  /** Flushing the buffer completes the loop. */
  lemma ClearedAll(f0: FlatMap, pool0: set<Pfn>, l0: Ledger, freed0: multiset<Pfn>,
      f: FlatMap, pool: set<Pfn>, l: Ledger, freed: multiset<Pfn>,
      pool': set<Pfn>, freed': multiset<Pfn>, addr: Addr, n: nat)
    requires ClearedPrefix(f0, pool0, l0, freed0, f, pool, l, freed, addr, n)
    requires pool' == pool + l.pending && freed' == freed + multiset(pool' - pool)
    ensures f == ClearRange(f0, addr, n) && pool' == pool0 + StaleIn(f0, addr, n)
    ensures freed' == freed0 + multiset(pool' - pool0) && l.lost == l0.lost && l.total == l0.total
  {
    MultisetGrow(pool0, pool, pool');
  }

  lemma OneFrame(p: Pfn, total: set<Pfn>)
    requires p !in total
    ensures Handover(FramesFrom(p * PAGE_SIZE, 1), total)
  {}

  lemma OffsetZero(v: Vpn)
    ensures Offset(0, v) == v
  {}

  lemma FirstFrame(p: Pfn)
    ensures FramesFrom(p * PAGE_SIZE, 1)[0] == p
  {
    assert p * PAGE_SIZE / PAGE_SIZE == p;
  }

  /** The first page of a blank map gets a frame, or stays absent. */
  lemma FirstMapped(f0: FlatMap, l0: Ledger, f: FlatMap, l: Ledger, p: Pfn, done: nat, flags: Flags)
    requires Blank(f0) && MappedPrefix(f0, l0, f, l, 0, FramesFrom(p * PAGE_SIZE, 1), done, flags, CALLBACK_NONE)
    ensures Total(f) && done <= 1 && (done == 1 ==> f == f0[0 := MapEntry(flags, p, CALLBACK_NONE)])
    ensures done == 0 ==> !f[PageAt(0, 0)].Present()
  {
    hide Offset, PageAt;
    forall v: Vpn ensures Offset(0, v) == v { OffsetZero(v); }
    FirstFrame(p);
    assert PageAt(0, 0) == 0 by { PageAtOffset(0, 0); }
  }
}
