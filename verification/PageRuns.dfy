/** Whole runs of a page table: any sequence of mappings, unmappings and clearings, and then teardown. */
module PageRuns {
  import opened Common
  import opened PageTree
  import opened PageAddr
  import opened FrameLedger
  import opened TableState
  import opened FlatSpec
  import opened PageTables
  import opened PageAlloc

  /** MapShared is page_table_map, MapOwned maps frames from the allocator, Alloc is vmm_alloc. */
  datatype Op =
    | MapShared(addr: Addr, phys: Addr, amount: nat, flags: Flags, callbackId: nat)
    | MapOwned(addr: Addr, amount: nat, flags: Flags, callbackId: nat)
    | Alloc(addr: Addr, amount: nat, flags: Flags, exclusive: bool)
    | Unmap(addr: Addr, amount: nat)
    | Clear(addr: Addr, amount: nat)

  // ---- pages unmapped and not cleared yet ---------------------------------------------------------

  ghost function Pages(addr: Addr, n: nat): iset<Vpn> { iset v: Vpn | Offset(addr, v) < n }

  /** The pages that wait to be cleared after op. */
  ghost function Waiting(pages: iset<Vpn>, op: Op): iset<Vpn> {
    match op
    case Unmap(addr, amount) => pages + Pages(addr, amount)
    case Clear(addr, amount) => pages - Pages(addr, amount)
    case _ => pages
  }

  /** op maps no page that waits to be cleared. */
  ghost predicate Careful(pages: iset<Vpn>, op: Op) { op.Unmap? || op.Clear? || Pages(op.addr, op.amount) !! pages }

  /** Each unmapped page is cleared, and is so before it is mapped again. */
  ghost predicate AllCareful(pages: iset<Vpn>, ops: seq<Op>) {
    if ops == [] then pages == iset{} else Careful(pages, ops[0]) && AllCareful(Waiting(pages, ops[0]), ops[1..])
  }

  /** Entries that hold on to a frame while being absent belong to pages that wait. */
  ghost predicate StaleWait(f: FlatMap, pages: iset<Vpn>) {
    forall v: Vpn :: v in f && (f[v].Owned() && !f[v].Present() ==> v in pages)
  }

  lemma BlankWaits(f: FlatMap)
    requires Blank(f)
    ensures StaleWait(f, iset{})
  {}

  lemma MapWaits(f0: FlatMap, l0: Ledger, f: FlatMap, l: Ledger,
      addr: Addr, frames: seq<Pfn>, n: nat, flags: Flags, callbackId: nat, pages: iset<Vpn>)
    requires MappedPrefix(f0, l0, f, l, addr, frames, n, flags, callbackId) && (flags.present || n == 0)
    requires StaleWait(f0, pages)
    ensures StaleWait(f, pages)
    ensures Pages(addr, |frames|) !! pages ==> OwnedIn(f0, addr, n) == {}
  {
    if Pages(addr, |frames|) !! pages {
      forall v: Vpn | Offset(addr, v) < n ensures !f0[v].Owned() { assert v in Pages(addr, |frames|); }
    }
  }

  lemma UnmapWaits(f: FlatMap, addr: Addr, n: nat, pages: iset<Vpn>)
    requires Total(f) && StaleWait(f, pages)
    ensures StaleWait(UnmapRange(f, addr, n), pages + Pages(addr, n))
  {}

  lemma ClearWaits(f: FlatMap, addr: Addr, n: nat, pages: iset<Vpn>)
    requires Total(f) && StaleWait(f, pages)
    ensures StaleWait(ClearRange(f, addr, n), pages - Pages(addr, n))
  {}

  lemma NothingWaits(f: FlatMap, pages: iset<Vpn>)
    requires Total(f) && StaleWait(f, pages) && pages == iset{}
    ensures StaleIn(f, 0, PAGE_LIMIT) == {}
  {}

  lemma ZeroWaits(f: FlatMap, addr: Addr, n: nat, pages: iset<Vpn>)
    requires Total(f) && StaleWait(f, pages)
    ensures StaleWait(ZeroRange(f, addr, n), pages)
  {}

  lemma RangeWaits(f: FlatMap, addr: Addr, frames: seq<Pfn>, n: nat, flags: Flags, callbackId: nat, pages: iset<Vpn>)
    requires Total(f) && StaleWait(f, pages) && n <= |frames| && (flags.present || n == 0)
    ensures Total(MapRange(f, addr, frames, n, flags, callbackId))
    ensures StaleWait(MapRange(f, addr, frames, n, flags, callbackId), pages)
  {}

  /** Absent pages that do not wait own no frame. */
  lemma NoneStale(f: FlatMap, addr: Addr, n: nat, amount: nat, pages: iset<Vpn>)
    requires Total(f) && StaleWait(f, pages) && Unmapped(f, addr, n) && n <= amount && n <= PAGE_LIMIT
    requires Pages(addr, amount) !! pages
    ensures OwnedIn(f, addr, n) == {}
  {
    hide Offset, PageAt;
    forall v: Vpn | Offset(addr, v) < n ensures !f[v].Owned() {
      PageAtOffset(addr, v);
      assert !f[PageAt(addr, Offset(addr, v))].Present();
      assert v in Pages(addr, amount);
    }
  }

  /** Nor do pages just emptied. */
  lemma NoneKept(f: FlatMap, addr: Addr, n: nat, amount: nat)
    requires Total(f) && n <= amount
    ensures Total(ZeroRange(f, addr, amount)) && OwnedIn(ZeroRange(f, addr, amount), addr, n) == {}
  {}

  // ---- one operation --------------------------------------------------------------------------------------

  /** How an operation ended, the frames it mapped or meant to map, and how many pages it got to. */
  datatype Report = Report(outcome: Outcome, frames: seq<Pfn>, done: nat)

  ghost predicate Shared(m0: Moment, m: Moment, addr: Addr, flags: Flags, callbackId: nat, r: Report) {
    && MappedPrefix(m0.view, m0.ledger, m.view, m.ledger, addr, r.frames, r.done, flags, callbackId)
    && m0.levels <= m.levels && m.taken == m0.taken + multiset(m.levels - m0.levels)
    && (r.outcome == Done || r.outcome == Stopped) && (r.outcome == Done <==> flags.present && r.done == |r.frames|)
    && (flags.present && r.outcome == Stopped ==> Blocked(m0, m, addr, r.done)) && (!flags.present ==> r.done == 0)
  }

  /** The table before and after an operation. */
  ghost predicate Executed(m0: Moment, m: Moment, op: Op, r: Report) {
    && Total(m0.view)
    && match op
       case MapShared(addr, phys, amount, flags, callbackId) =>
         r.frames == FramesFrom(phys, amount) && Shared(m0, m, addr, flags.(owned := false), callbackId, r)
       case MapOwned(addr, amount, flags, callbackId) =>
         Provided(m0, m, addr, amount, flags.(owned := true), callbackId, r.outcome, r.frames, r.done)
       case Alloc(addr, amount, flags, exclusive) =>
         Allocated(m0, m, addr, amount, flags, exclusive, r.outcome, r.frames, r.done)
       case Unmap(addr, amount) => m == m0.(view := UnmapRange(m0.view, addr, amount))
       case Clear(addr, amount) =>
         && m == m0.(view := ClearRange(m0.view, addr, amount), pool := m.pool, ledger := m.ledger)
         && m.pool == m0.pool + StaleIn(m0.view, addr, amount) && m.ledger == m0.ledger.(owners := m.ledger.owners)
  }

  /** The frames an operation took for pages. */
  ghost function Spent(op: Op, r: Report): set<Pfn> {
    if op.Alloc? then Members(r.frames)
    else if op.MapOwned? && r.done <= |r.frames| then Members(r.frames[..r.done])
    else {}
  }

  /** The frames a failed vmm_alloc forgets. */
  ghost function Leaked(op: Op, r: Report): set<Pfn> {
    if op.Alloc? && r.done <= |r.frames| then Members(r.frames[r.done..]) else {}
  }

  /** The frames an operation loses: those of absent entries it maps over, and those it forgets. */
  ghost function Loses(m: Moment, op: Op, r: Report): set<Pfn> {
    if !Total(m.view) then {}
    else match op
      case MapShared(addr, _, _, _, _) => OwnedIn(m.view, addr, r.done)
      case MapOwned(addr, _, _, _) => OwnedIn(m.view, addr, r.done)
      case Alloc(addr, amount, _, _) => OwnedIn(Vacated(m, addr, amount), addr, r.done) + Leaked(op, r)
      case _ => {}
  }

  /** The flat map once vmm_alloc has made room. */
  ghost function Vacated(m: Moment, addr: Addr, amount: nat): (f: FlatMap)
    requires Total(m.view)
    ensures Total(f)
  {
    Emptied(m, addr, amount).view
  }

  lemma ExecutedLoses(m0: Moment, m: Moment, op: Op, r: Report)
    requires Executed(m0, m, op, r)
    ensures m.ledger.lost == m0.ledger.lost + Loses(m0, op, r)
  {
    hide MapRange, ZeroRange, UnmapRange, ClearRange, StaleIn, Unmapped, Distinct, Members, OwnedIn, Emptied;
    if op.Alloc? {
      NoMembers();
      EmptiedIs(m0, op.addr, op.amount);
      NoneOwned(Vacated(m0, op.addr, op.amount), op.addr);
    }
  }

  lemma NoneOwned(f: FlatMap, addr: Addr)
    requires Total(f)
    ensures OwnedIn(f, addr, 0) == {}
  {}

  lemma ExecutedTakes(m0: Moment, m: Moment, op: Op, r: Report)
    requires Executed(m0, m, op, r)
    ensures m.ledger.total == m0.ledger.total && m.ledger.pending == m0.ledger.pending && m0.levels <= m.levels
    ensures m.taken == m0.taken + multiset(m.levels - m0.levels) + multiset(Spent(op, r))
  {
    hide MapRange, OwnedIn, ZeroRange, UnmapRange, ClearRange, StaleIn, Unmapped, Distinct, Members;
    assert m0.levels - m0.levels == {};
    NoMembers();
  }

  lemma SharedWaits(m0: Moment, m: Moment, op: Op, r: Report, pages: iset<Vpn>)
    requires Executed(m0, m, op, r) && op.MapShared? && StaleWait(m0.view, pages)
    ensures StaleWait(m.view, pages) && (Careful(pages, op) ==> m.ledger.lost == m0.ledger.lost)
  {
    hide StaleWait, OwnedIn, Pages, MappedPrefix;
    MapWaits(m0.view, m0.ledger, m.view, m.ledger, op.addr, r.frames, r.done, op.flags.(owned := false), op.callbackId,
      pages);
    PrefixIs(m0.view, m0.ledger, m.view, m.ledger, op.addr, r.frames, r.done, op.flags.(owned := false), op.callbackId);
  }

  lemma OwnedWaits(m0: Moment, m: Moment, op: Op, r: Report, pages: iset<Vpn>)
    requires Executed(m0, m, op, r) && op.MapOwned? && StaleWait(m0.view, pages)
    ensures StaleWait(m.view, pages) && (Careful(pages, op) ==> m.ledger.lost == m0.ledger.lost)
  {
    hide StaleWait, OwnedIn, Pages, MapRange, ZeroRange, Members, Distinct;
    ZeroWaits(m0.view, op.addr, op.amount, pages);
    if r.outcome.Done? {
      RangeWaits(m0.view, op.addr, r.frames, r.done, op.flags.(owned := true), op.callbackId, pages);
    }
    if Careful(pages, op) { NoneStale(m0.view, op.addr, r.done, op.amount, pages); }
  }

  lemma AllocWaits(m0: Moment, m: Moment, op: Op, r: Report, pages: iset<Vpn>)
    requires Executed(m0, m, op, r) && op.Alloc? && StaleWait(m0.view, pages)
    ensures StaleWait(m.view, pages) && (Careful(pages, op) ==> m.ledger.lost == m0.ledger.lost + Leaked(op, r))
  {
    hide StaleWait, OwnedIn, Pages, MapRange, ZeroRange, Members, Distinct, Unmapped;
    NoMembers();
    var m1 := Emptied(m0, op.addr, op.amount);
    ZeroWaits(m0.view, op.addr, op.amount, pages);
    NoneKept(m0.view, op.addr, r.done, op.amount);
    ZeroUnmapped(m0.view, op.addr, op.amount);
    if !r.outcome.Invalid? && !r.outcome.Exists? {
      var flags := op.flags.(owned := true);
      RangeWaits(m1.view, op.addr, r.frames, r.done, flags, CALLBACK_NONE, pages);
      ZeroWaits(MapRange(m1.view, op.addr, r.frames, r.done, flags, CALLBACK_NONE), op.addr,
        if r.outcome.Done? then 0 else r.done - r.done % MAX_BATCH_SIZE, pages);
      if Careful(pages, op) && m1 == m0 {
        UnmappedLess(m0.view, op.addr, op.amount, r.done);
        NoneStale(m0.view, op.addr, r.done, op.amount, pages);
      }
    }
  }

  lemma UnmappedLess(f: FlatMap, addr: Addr, amount: nat, n: nat)
    requires Total(f) && n <= amount
    ensures Unmapped(f, addr, amount) ==> Unmapped(f, addr, n)
  {}

  /** Pages wait as Waiting says, and a careful operation loses only what a failed vmm_alloc forgets. */
  lemma ExecutedWaits(m0: Moment, m: Moment, op: Op, r: Report, pages: iset<Vpn>)
    requires Executed(m0, m, op, r) && StaleWait(m0.view, pages)
    ensures StaleWait(m.view, Waiting(pages, op))
    ensures Careful(pages, op) ==> m.ledger.lost == m0.ledger.lost + Leaked(op, r)
  {
    hide StaleWait, Pages, Provided, Allocated, Shared, UnmapRange, ClearRange, StaleIn;
    match op
    case MapShared(_, _, _, _, _) => SharedWaits(m0, m, op, r, pages);
    case MapOwned(_, _, _, _) => OwnedWaits(m0, m, op, r, pages);
    case Alloc(_, _, _, _) => AllocWaits(m0, m, op, r, pages);
    case Unmap(addr, amount) => UnmapWaits(m0.view, addr, amount, pages);
    case Clear(addr, amount) => ClearWaits(m0.view, addr, amount, pages);
  }

  method MapSharedFrames(t: PageTable, addr: Addr, phys: Addr, amount: nat, flags: Flags, callbackId: nat)
    returns (ghost r: Report)
    requires t.Valid() && t.Accounts() && !flags.owned
    modifies t
    ensures t.Valid() && t.Accounts() && r.frames == FramesFrom(phys, amount)
    ensures Shared(old(Now(t)), Now(t), addr, flags, callbackId, r)
  {
    hide Accounted, Logged, Sound, Flat, MappedPrefix, Grew, Extends, LeafNode, PageAt, Members, OwnedIn, Handover, Honest;
    FlatTotal(t.mem, t.pml4);
    ghost var m0, mem0, tree0, freed0 := Now(t), t.mem, t.tree, t.freed;
    var ok; ghost var done;
    ok, done := t.Map(addr, phys, amount, flags, callbackId);
    r := Report(if ok then Done else Stopped, FramesFrom(phys, amount), done);
    PrefixIs(m0.view, m0.ledger, t.View(), t.ledger, addr, r.frames, done, flags, callbackId);
    GrewExtends(tree0, m0.pool, t.tree, t.pool, addr, if ok then done else done + 1, done);
    LevelsGrew(mem0, t.pml4, tree0, m0.pool, t.mem, t.pml4, t.tree, t.pool);
    TakenGrew(m0.taken, m0.ledger.total, m0.pool, t.taken, t.ledger.total, t.pool, t.freed, {});
    FlatTotal(t.mem, t.pml4);
  }

  method Execute(t: PageTable, op: Op) returns (ghost r: Report)
    requires t.Valid() && t.Accounts() && t.ledger.pending == {}
    modifies t
    ensures t.Valid() && t.Accounts() && t.ledger.pending == {}
    ensures Executed(old(Now(t)), Now(t), op, r)
  {
    hide Accounted, Logged, Sound, Flat, Shared, Provided, Allocated, ClearRange, UnmapRange, StaleIn, Honest;
    FlatTotal(t.mem, t.pml4);
    ghost var m0 := Now(t);
    match op {
      case MapShared(addr, phys, amount, flags, callbackId) =>
        r := MapSharedFrames(t, addr, phys, amount, flags.(owned := false), callbackId);
      case MapOwned(addr, amount, flags, callbackId) =>
        var outcome; ghost var frames, done;
        outcome, frames, done := MapWithdrawn(t, addr, amount, flags.(owned := true), callbackId);
        r := Report(outcome, frames, done);
      case Alloc(addr, amount, flags, exclusive) =>
        var outcome; ghost var frames, done;
        outcome, frames, done := PageAlloc.Alloc(t, addr, amount, flags, exclusive);
        r := Report(outcome, frames, done);
      case Unmap(addr, amount) =>
        t.Unmap(addr, amount);
        r := Report(Done, [], 0);
      case Clear(addr, amount) =>
        t.Clear(addr, amount);
        r := Report(Done, [], 0);
    }
    ExecutedTakes(m0, Now(t), op, r);
  }

  // ---- runs -----------------------------------------------------------------------------------------------

  /** The moments of a run, each the outcome of its operation on the one before. */
  ghost predicate Traced(trace: seq<Moment>, ops: seq<Op>, reports: seq<Report>) {
    && |trace| == |reports| + 1 && |reports| <= |ops| && Blank(trace[0].view) && Total(trace[|reports|].view)
    && forall i {:trigger reports[i]} :: 0 <= i < |reports| ==> Executed(trace[i], trace[i + 1], ops[i], reports[i])
  }

  /** Every frame taken in a run: the root, the levels added, and the frames for pages. */
  ghost function Used(trace: seq<Moment>, ops: seq<Op>, reports: seq<Report>): multiset<Pfn>
    requires |trace| == |reports| + 1 && |reports| <= |ops|
    decreases |reports|
  {
    if reports == [] then multiset(trace[0].levels)
    else
      var n := |reports| - 1;
      Used(trace[..n + 1], ops, reports[..n]) + multiset(trace[n + 1].levels - trace[n].levels)
        + multiset(Spent(ops[n], reports[n]))
  }

  /** The frames lost in a run. */
  ghost function AllLost(trace: seq<Moment>, ops: seq<Op>, reports: seq<Report>): set<Pfn>
    requires |trace| == |reports| + 1 && |reports| <= |ops|
    decreases |reports|
  {
    if reports == [] then {}
    else var n := |reports| - 1; AllLost(trace[..n + 1], ops, reports[..n]) + Loses(trace[n], ops[n], reports[n])
  }

  /** The frames forgotten in a run. */
  ghost function AllLeaked(ops: seq<Op>, reports: seq<Report>): set<Pfn>
    requires |reports| <= |ops|
  {
    if reports == [] then {}
    else var n := |reports| - 1; AllLeaked(ops, reports[..n]) + Leaked(ops[n], reports[n])
  }

  lemma TracedMore(trace: seq<Moment>, ops: seq<Op>, reports: seq<Report>, m: Moment, r: Report)
    requires Traced(trace, ops, reports) && |reports| < |ops|
    requires Executed(trace[|reports|], m, ops[|reports|], r) && Total(m.view)
    requires trace[|reports|].taken == Used(trace, ops, reports)
    requires trace[|reports|].ledger.lost == AllLost(trace, ops, reports)
    ensures Traced(trace + [m], ops, reports + [r]) && m.taken == Used(trace + [m], ops, reports + [r])
    ensures m.ledger.lost == AllLost(trace + [m], ops, reports + [r])
    ensures AllLeaked(ops, reports + [r]) == AllLeaked(ops, reports) + Leaked(ops[|reports|], r)
    ensures m.ledger.total == trace[|reports|].ledger.total && m.ledger.pending == trace[|reports|].ledger.pending
  {
    hide Executed, Leaked, Spent, Blank, Loses, Total;
    ExecutedTakes(trace[|reports|], m, ops[|reports|], r);
    ExecutedLoses(trace[|reports|], m, ops[|reports|], r);
    assert (trace + [m])[..|trace|] == trace && (reports + [r])[..|reports|] == reports;
  }

  lemma {:induction false} NoLeaks(ops: seq<Op>, reports: seq<Report>)
    requires |reports| <= |ops| && forall i :: 0 <= i < |reports| ==> Leaked(ops[i], reports[i]) == {}
    ensures AllLeaked(ops, reports) == {}
    decreases |reports|
  {
    hide Leaked;
    if reports == [] {
    } else {
      NoLeaks(ops, reports[..|reports| - 1]);
    }
  }

  /** The operations of a run on a new table. */
  method ExecuteAll(t: PageTable, ops: seq<Op>, ghost frames: set<Pfn>)
    returns (ghost trace: seq<Moment>, ghost reports: seq<Report>)
    requires t.Valid() && t.Accounts() && Blank(t.View()) && t.ledger == Ledger(map[], {}, {}, frames)
    requires t.freed == multiset{}
    modifies t
    ensures t.Valid() && t.Accounts() && t.ledger.pending == {} && t.ledger.total == frames
    ensures |reports| == |ops| && Traced(trace, ops, reports) && trace[|ops|] == Now(t)
    ensures t.taken == Used(trace, ops, reports) && t.ledger.lost == AllLost(trace, ops, reports)
    ensures AllCareful(iset{}, ops) ==>
      t.ledger.lost == AllLeaked(ops, reports) && Total(t.View()) && StaleIn(t.View(), 0, PAGE_LIMIT) == {}
  {
    hide Accounted, Logged, Sound, Flat, Blank, StaleIn, StaleWait, AllCareful, Executed, Traced, Used, AllLeaked, AllLost,
      Honest, Leaked, Spent, Waiting;
    trace, reports := [Now(t)], [];
    LeaksNothing(ops);
    BlankWaits(t.View());
    TracedNothing(t, ops, frames);
    hide PageTable.Valid, PageTable.Accounts;
    ghost var pages: iset<Vpn> := iset{};
    for i := 0 to |ops|
      invariant t.Valid() && t.Accounts() && t.ledger.pending == {} && t.ledger.total == frames
      invariant |reports| == i && |trace| == i + 1 && trace[i] == Now(t) && Traced(trace, ops, reports)
      invariant t.taken == Used(trace, ops, reports) && t.ledger.lost == AllLost(trace, ops, reports)
      invariant AllCareful(iset{}, ops) ==>
        AllCareful(pages, ops[i..]) && StaleWait(t.View(), pages) && t.ledger.lost == AllLeaked(ops, reports)
    {
      ghost var r := Execute(t, ops[i]);
      FlatTotal(t.mem, t.pml4);
      TracedMore(trace, ops, reports, Now(t), r);
      Carefully(trace[i], Now(t), ops, i, r, pages);
      trace, reports := trace + [Now(t)], reports + [r];
      pages := Waiting(pages, ops[i]);
    }
    FlatTotal(t.mem, t.pml4);
    NothingLeft(t.View(), pages, ops[|ops|..]);
  }

  /** Over any run each frame taken, be it for a level or for a page, is given back once or is lost, and all frames
      that are not lost are free again. Lost are exactly the frames the operations lose and those of absent entries at
      the end. If each unmapped page is cleared before it is mapped again and before the end, these are the frames a
      failed vmm_alloc forgets. */
  method Run(frames: set<Pfn>, stingy: bool, ops: seq<Op>)
    returns (ok: bool, t: PageTable, ghost trace: seq<Moment>, ghost reports: seq<Report>)
    ensures fresh(t) && |trace| == |reports| + 1 && |reports| <= |ops|
    ensures t.taken == t.freed + multiset(t.ledger.lost) && t.pool == frames - t.ledger.lost
    ensures if ok then
        t.mem == map[] && |reports| == |ops| && Traced(trace, ops, reports) && t.taken == Used(trace, ops, reports)
      else t.taken == multiset{} && reports == [] && (stingy || frames == {})
    ensures ok ==> t.ledger.lost == AllLost(trace, ops, reports) + StaleIn(trace[|ops|].view, 0, PAGE_LIMIT)
    ensures AllCareful(iset{}, ops) ==> t.ledger.lost == AllLeaked(ops, reports)
    ensures AllCareful(iset{}, ops) && (forall i :: 0 <= i < |reports| ==> Leaked(ops[i], reports[i]) == {}) ==>
      t.pool == frames && t.taken == t.freed
  {
    hide Accounted, Logged, Sound, Flat, Blank, StaleIn, AllCareful, Used, AllLeaked, AllLost, Honest, Leaked, Executed,
      PageTable.Valid, PageTable.Accounts;
    t := new PageTable(stingy);
    ok := t.Init(frames);
    LeaksNothing(ops);
    if !ok {
      trace, reports := [Now(t)], [];
      LoggedIs(t.taken, t.freed, t.ledger.total - t.pool);
      assert frames - frames == {};
      return;
    }
    trace, reports := ExecuteAll(t, ops, frames);
    t.Deinit();
    if forall i :: 0 <= i < |reports| ==> Leaked(ops[i], reports[i]) == {} { NoLeaks(ops, reports); }
  }

  lemma LeaksNothing(ops: seq<Op>)
    ensures AllLeaked(ops, []) == {}
  {}

  lemma TracedNothing(t: PageTable, ops: seq<Op>, frames: set<Pfn>)
    requires Blank(t.View()) && t.Accounts() && t.ledger == Ledger(map[], {}, {}, frames)
    requires Logged(t.taken, t.freed, t.ledger.total - t.pool) && t.freed == multiset{}
    ensures Traced([Now(t)], ops, []) && t.taken == Used([Now(t)], ops, []) && AllLost([Now(t)], ops, []) == {}
  {
    assert t.ledger.total - t.pool == t.tree.place.Keys;
  }

  lemma Carefully(m0: Moment, m: Moment, ops: seq<Op>, i: nat, r: Report, pages: iset<Vpn>)
    requires i < |ops| && Executed(m0, m, ops[i], r)
    ensures StaleWait(m0.view, pages) && AllCareful(pages, ops[i..]) ==>
      && StaleWait(m.view, Waiting(pages, ops[i])) && AllCareful(Waiting(pages, ops[i]), ops[i + 1..])
      && m.ledger.lost == m0.ledger.lost + Leaked(ops[i], r)
  {
    hide StaleWait, Waiting, Careful, Executed, Leaked;
    assert ops[i..][0] == ops[i] && ops[i..][1..] == ops[i + 1..];
    if StaleWait(m0.view, pages) { ExecutedWaits(m0, m, ops[i], r, pages); }
  }

  lemma NothingLeft(f: FlatMap, pages: iset<Vpn>, ops: seq<Op>)
    requires Total(f) && ops == []
    ensures AllCareful(pages, ops) && StaleWait(f, pages) ==> StaleIn(f, 0, PAGE_LIMIT) == {}
  {
    if AllCareful(pages, ops) && StaleWait(f, pages) { NothingWaits(f, pages); }
  }

  /** The exact loss in the smallest run that is not careful: an owned page is unmapped and mapped again without
      clearing. The page leads to the shared frame, and its own is lost. */
  method OverwriteLoses(frames: set<Pfn>, own: Pfn, shared: Pfn, flags: Flags) returns (t: PageTable)
    requires |frames| > 4 && own !in frames && flags.present && !flags.owned
    ensures fresh(t) && t.Valid() && t.Accounts() && t.ledger.total == frames + {own}
    ensures t.ledger.lost == {own} && t.View()[0].flags == flags && t.View()[0].pfn == shared
  {
    hide Accounted, Logged, Sound, Flat, Blank, MappedPrefix, Grew, UnmapRange, MapEntry, Extends, Honest, PageAt, LeafNode;
    ghost var f0;
    t, f0 := OwnPage(frames, own, flags.(owned := true));
    ghost var f1, l1 := t.View(), t.ledger;
    FlatTotal(t.mem, t.pml4);
    t.Unmap(0, 1);
    ghost var f2, t2, pool2 := t.View(), t.tree, t.pool;
    var ok; ghost var done;
    ok, done := t.Map(0, shared * PAGE_SIZE, 1, flags, CALLBACK_NONE);
    GrewExtends(t2, pool2, t.tree, t.pool, 0, if ok then done else done + 1, done);
    StillThere(t2, pool2, t.tree, t.pool, LeafNode(PageAt(0, 0)));
    Overwritten(f0, f1, f2, l1, t.View(), t.ledger, own, shared, done, flags);
  }

  lemma StillThere(t0: Tree, pool0: set<Pfn>, t: Tree, pool: set<Pfn>, n: Node)
    requires Extends(t0, pool0, t, pool) && n in t0.shape
    ensures n in t.shape
  {}

  lemma Overwritten(f0: FlatMap, f1: FlatMap, f2: FlatMap, l1: Ledger, f3: FlatMap, l3: Ledger,
      own: Pfn, shared: Pfn, n: nat, flags: Flags)
    requires Blank(f0) && flags.present && !flags.owned
    requires f1 == f0[0 := MapEntry(flags.(owned := true), own, CALLBACK_NONE)]
    requires Total(f1) && f2 == UnmapRange(f1, 0, 1)
    requires MappedPrefix(f2, l1, f3, l3, 0, FramesFrom(shared * PAGE_SIZE, 1), n, flags, CALLBACK_NONE)
    ensures n <= 1 && PageAt(0, 0) == 0 && (n == 0 ==> !f3[0].Present())
    ensures n == 1 ==> l3.lost == l1.lost + {own} && l3.total == l1.total && f3[0].flags == flags && f3[0].pfn == shared
  {
    hide Offset, PageAt, Members;
    forall v: Vpn ensures Offset(0, v) == v { OffsetZero(v); }
    PageAtOffset(0, 0);
    assert f2[0].Owned() && !f2[0].Present() && f2[0].pfn == own;
    assert OwnedIn(f2, 0, 1) == {own};
    FirstFrame(shared);
  }

  // ---- frames given by a caller ---------------------------------------------------------------------------

  /** The lowest table of every page after the first is there already or is the first page's. */
  ghost predicate Sheltered(shape: map<Node, Pfn>, addr: Addr, n: nat) {
    forall i: nat :: 0 < i < n ==>
      LeafNode(PageAt(addr, i)) in shape || LeafNode(PageAt(addr, i)) == LeafNode(PageAt(addr, 0))
  }

  /** A mapping of unmapped, sheltered pages that fails fails at the first page. */
  lemma FailsAtFirst(f0: FlatMap, l0: Ledger, f: FlatMap, l: Ledger, t0: Tree, pool0: set<Pfn>, t: Tree, pool: set<Pfn>,
      addr: Addr, frames: seq<Pfn>, done: nat, flags: Flags, callbackId: nat)
    requires MappedPrefix(f0, l0, f, l, addr, frames, done, flags, callbackId) && done < |frames| <= PAGE_LIMIT
    requires Grew(t0, pool0, t, pool, addr, done + 1, done)
    requires f[PageAt(addr, done)].Present() || LeafNode(PageAt(addr, done)) !in t.shape
    requires Unmapped(f0, addr, |frames|) && Sheltered(t0.shape, addr, |frames|)
    ensures done == 0
  {
    hide LeafNode, PageAt;
    var first := LeafNode(PageAt(addr, 0));
    assert done > 0 ==> first in t.shape;
    OffsetPageAt(addr, done);
    assert f[PageAt(addr, done)] == f0[PageAt(addr, done)];
  }

  /** vmm_map_pages with frames its caller frees after a failure. It succeeds with every page mapped, or a level was
      refused and the range is empty. The frames mapped before the failure are free by then; on sheltered pages there
      are none. */
  method MapGiven(t: PageTable, addr: Addr, frames: seq<Pfn>, flags: Flags, callbackId: nat)
    returns (ok: bool, ghost done: nat)
    requires t.Valid() && t.Accounts() && t.ledger.pending == {} && flags.owned && flags.present
    requires Handover(frames, t.ledger.total) && |frames| <= PAGE_LIMIT
    modifies t
    ensures t.Valid() && t.Accounts() && Total(old(t.View())) && done <= |frames| && (ok <==> done == |frames|)
    ensures ok ==> MappedPrefix(Emptied(old(Now(t)), addr, |frames|).view, old(t.ledger), t.View(), t.ledger,
                                addr, frames, |frames|, flags, callbackId)
    ensures !ok ==> t.View() == ZeroRange(old(t.View()), addr, |frames|) && Members(frames[..done]) <= t.pool
    ensures !ok ==> t.refusals == old(t.refusals) + [Left(Emptied(old(Now(t)), addr, |frames|), Now(t), [])]
    ensures !ok && Sheltered(old(t.tree.shape), addr, |frames|) ==> done == 0 && Members(frames) !! t.pool
  {
    hide Accounted, Logged, Sound, Flat, MappedPrefix, Members, Handover, Grew, ZeroRange, OwnedIn, Sheltered,
      Unmapped, LeafNode, PageAt, Honest, Emptied, Left;
    OwnedTotal(t);
    ghost var m0, t0 := Now(t), t.tree;
    EmptiedIs(m0, addr, |frames|);
    var vacant := Vacate(t, addr, |frames|, false);
    FieldsOfFrames(frames);
    ghost var m1, mem1 := Now(t), t.mem;
    ok, done := t.MapPages(addr, frames, flags, callbackId);
    PrefixIs(m1.view, m1.ledger, t.View(), t.ledger, addr, frames, done, flags, callbackId);
    PrefixFrom(m1.view, m1.ledger, m0.ledger, t.View(), t.ledger, addr, frames, done, flags, callbackId);
    if ok { return; }
    ghost var m2 := Now(t);
    NewFrames(frames, m0.ledger.total);
    StillAbsent(m1.view, m1.ledger, m2.view, m2.ledger, addr, frames, done, flags, callbackId);
    GrewExtends(t0, m1.pool, t.tree, t.pool, addr, done + 1, done);
    LevelsGrew(mem1, t.pml4, t0, m1.pool, t.mem, t.pml4, t.tree, t.pool);
    LevelsLeft(m1, m2);
    if Sheltered(t0.shape, addr, |frames|) {
      FailsAtFirst(m1.view, m1.ledger, m2.view, m2.ledger, t0, m1.pool, t.tree, t.pool, addr, frames, done, flags,
        callbackId);
    }
    Discard(t, addr, |frames|);
    GivenBack(m0, m1, m2, Now(t), addr, frames, done, flags, callbackId);
    OwnedTotal(t);
  }

  lemma PrefixFrom(f0: FlatMap, l1: Ledger, l0: Ledger, f: FlatMap, l: Ledger,
      addr: Addr, frames: seq<Pfn>, n: nat, flags: Flags, callbackId: nat)
    requires MappedPrefix(f0, l1, f, l, addr, frames, n, flags, callbackId)
    requires l0.lost == l1.lost && l0.pending == l1.pending && l0.total == l1.total
    ensures MappedPrefix(f0, l0, f, l, addr, frames, n, flags, callbackId)
  {}

  lemma StillAbsent(f0: FlatMap, l0: Ledger, f: FlatMap, l: Ledger,
      addr: Addr, frames: seq<Pfn>, n: nat, flags: Flags, callbackId: nat)
    requires MappedPrefix(f0, l0, f, l, addr, frames, n, flags, callbackId) && n < |frames| <= PAGE_LIMIT
    requires Unmapped(f0, addr, |frames|)
    ensures !f[PageAt(addr, n)].Present()
  {
    hide PageAt, Offset, OwnedIn, Members;
    OffsetPageAt(addr, n);
  }

  lemma LevelsLeft(m0: Moment, m: Moment)
    requires m0.levels <= m.levels && m.pool <= m0.pool && m0.pool - m.pool == m.levels - m0.levels
    ensures |m.pool| == Left(m0, m, [])
  {
    assert |m0.pool - m.pool| == |m0.pool| - |m.pool|;
  }

  lemma GivenBack(m0: Moment, m1: Moment, m2: Moment, m: Moment, addr: Addr, frames: seq<Pfn>, done: nat, flags: Flags,
      callbackId: nat)
    requires Total(m0.view) && m1 == Emptied(m0, addr, |frames|).(ledger := m1.ledger) && flags.owned
    requires MappedPrefix(m1.view, m1.ledger, m2.view, m2.ledger, addr, frames, done, flags, callbackId) && Total(m2.view)
    requires m.view == ZeroRange(m2.view, addr, |frames|) && m.levels == m2.levels
    requires m.pool == m2.pool + OwnedIn(m2.view, addr, |frames|)
    ensures m.view == ZeroRange(m0.view, addr, |frames|) && done <= |frames| && Members(frames[..done]) <= m.pool
    ensures Left(Emptied(m0, addr, |frames|), m, []) == Left(m1, m2, [])
  {
    hide OwnedIn, MapRange, Members, Unmapped, ZeroRange;
    ZeroAfterMap(m1.view, addr, frames, done, flags, callbackId, |frames|);
    ZeroTwice(m0.view, addr, |frames|);
    MappedFreed(m1.view, m1.ledger, m2.view, m2.ledger, addr, frames, done, flags, callbackId, m.pool);
  }

  lemma ZeroTwice(f: FlatMap, addr: Addr, n: nat)
    requires Total(f)
    ensures Total(ZeroRange(f, addr, n)) && ZeroRange(ZeroRange(f, addr, n), addr, n) == ZeroRange(f, addr, n)
  {}

  /** Discarding the range of a mapping of owned frames frees those that were mapped. */
  lemma MappedFreed(f0: FlatMap, l0: Ledger, f: FlatMap, l: Ledger,
      addr: Addr, frames: seq<Pfn>, n: nat, flags: Flags, callbackId: nat, pool: set<Pfn>)
    requires MappedPrefix(f0, l0, f, l, addr, frames, n, flags, callbackId) && flags.owned
    requires Total(f) && OwnedIn(f, addr, |frames|) <= pool
    ensures n <= |frames| && Members(frames[..n]) <= pool
  {
    hide MapRange, OwnedIn;
    OwnedOfMap(f0, addr, frames, n, flags, callbackId, n);
    OwnedMore(f, addr, n, |frames|);
  }

  lemma PrefixIs(f0: FlatMap, l0: Ledger, f: FlatMap, l: Ledger,
      addr: Addr, frames: seq<Pfn>, n: nat, flags: Flags, callbackId: nat)
    requires MappedPrefix(f0, l0, f, l, addr, frames, n, flags, callbackId)
    ensures n <= |frames| && l.pending == l0.pending && (n == 0 || !flags.owned ==> l.total == l0.total)
    ensures Total(f0) && l.lost == l0.lost + OwnedIn(f0, addr, n)
  {}

  lemma NewFrames(frames: seq<Pfn>, total: set<Pfn>)
    requires Handover(frames, total)
    ensures Members(frames) !! total
  {}

  // ---- and one where that goes wrong ------------------------------------------------------------------------

  /** Pages 511 and 512 are in neighbouring tables. */
  lemma Neighbours()
    ensures PageAt(511 * PAGE_SIZE, 0) == 511 && PageAt(511 * PAGE_SIZE, 1) == 512
    ensures LeafNode(511) == L1(0, 0, 0) && LeafNode(512) == L1(0, 0, 1)
  {}

  lemma FiveLevels(mem: Memory, root: Pfn, pool: set<Pfn>, t: Tree)
    requires Sound(mem, root, pool, t) && L1(0, 0, 0) in t.shape && L1(0, 0, 1) in t.shape
    ensures |t.place.Keys + pool| >= |t.place.Keys| >= 5
  {
    hide Linked;
    var n := L1(0, 0, 0);
    assert n.Parent() in t.shape && n.Parent().Parent() in t.shape;
    SubsetSize({L4, L3(0), L2(0, 0), L1(0, 0, 0), L1(0, 0, 1)}, t.shape.Keys);
    SameCount(t.shape, t.place);
    SubsetSize(t.place.Keys, t.place.Keys + pool);
  }

  lemma ThreeLevels(mem: Memory, root: Pfn, pool: set<Pfn>, t: Tree)
    requires Sound(mem, root, pool, t) && t.shape.Keys <= {L4, L3(0), L2(0, 0)}
    ensures |pool| + 3 >= |t.place.Keys + pool|
  {
    hide WellFormed;
    assert Bijective(t.shape, t.place) by { Placed(mem, root, pool, t); }
    SubsetSize(t.shape.Keys, {L4, L3(0), L2(0, 0)});
    SameCount(t.shape, t.place);
  }

  /** Trying page 511 alone adds no level but those on its way. */
  lemma FirstPath(t0: Tree, pool0: set<Pfn>, t: Tree, pool: set<Pfn>)
    requires t0.shape.Keys == {L4} && Grew(t0, pool0, t, pool, 511 * PAGE_SIZE, 1, 0)
    ensures t.shape.Keys <= {L4, L3(0), L2(0, 0), L1(0, 0, 0)}
  {
    forall v: Vpn | Offset(511 * PAGE_SIZE, v) < 1 ensures v == 511 { PageAtOffset(511 * PAGE_SIZE, v); }
  }

  lemma GrewFrames(t0: Tree, pool0: set<Pfn>, t: Tree, pool: set<Pfn>, addr: Addr, tried: nat, done: nat)
    requires Grew(t0, pool0, t, pool, addr, tried, done)
    ensures t0.place.Keys + pool0 == t.place.Keys + pool
  {
    hide OnPaths, LeafNode;
  }

  /** With four frames there are levels for page 511 and not for page 512. */
  lemma FourFrames(mem: Memory, root: Pfn, t0: Tree, pool0: set<Pfn>, t: Tree, pool: set<Pfn>, ok: bool, done: nat)
    requires Sound(mem, root, pool, t) && t0.shape.Keys == {L4} && |t0.place.Keys + pool0| == 4 && (ok <==> done == 2)
    requires Grew(t0, pool0, t, pool, 511 * PAGE_SIZE, if ok then done else done + 1, done) && done <= 2
    ensures !ok && (done == 0 && L1(0, 0, 0) !in t.shape ==> pool != {})
  {
    hide PageAt, LeafNode, Sound, Grew;
    Neighbours();
    GrewFrames(t0, pool0, t, pool, 511 * PAGE_SIZE, if ok then done else done + 1, done);
    if ok {
      GrewLeaf(t0, pool0, t, pool, 511 * PAGE_SIZE, done, done, 0);
      GrewLeaf(t0, pool0, t, pool, 511 * PAGE_SIZE, done, done, 1);
      FiveLevels(mem, root, pool, t);
    }
    if done == 0 && L1(0, 0, 0) !in t.shape {
      FirstPath(t0, pool0, t, pool);
      ThreeLevels(mem, root, pool, t);
    }
  }

  /** Pages 511 and 512 of an empty table. */
  method TryTwo(frames: set<Pfn>, pfns: seq<Pfn>, flags: Flags)
    returns (t: PageTable, ok: bool, ghost m0: Moment, ghost done: nat)
    requires |frames| == 4 && |pfns| == 2 && Handover(pfns, frames) && flags.present && flags.owned
    ensures fresh(t) && t.Valid() && t.Accounts() && t.ledger.pending == {} && !ok && done == 1
    ensures Blank(m0.view) && m0.ledger == Ledger(map[], {}, {}, frames)
    ensures MappedPrefix(m0.view, m0.ledger, t.View(), t.ledger, 511 * PAGE_SIZE, pfns, 1, flags, CALLBACK_NONE)
  {
    hide Accounted, Logged, Sound, Flat, Blank, MappedPrefix, Handover, PageAt, Grew, LeafNode, Honest;
    t := new PageTable(false);
    ok := t.Init(frames);
    m0 := Now(t);
    ghost var t0 := t.tree;
    FieldsOfFrames(pfns);
    ok, done := t.MapPages(511 * PAGE_SIZE, pfns, flags, CALLBACK_NONE);
    PrefixIs(m0.view, m0.ledger, t.View(), t.ledger, 511 * PAGE_SIZE, pfns, done, flags, CALLBACK_NONE);
    NotYetMapped(m0.view, m0.ledger, t.View(), t.ledger, pfns, done, flags);
    Neighbours();
    FourFrames(t.mem, t.pml4, t0, m0.pool, t.tree, t.pool, ok, done);
  }

  /** Four frames for the levels and two for the pages: the mapping fails at the second page, and by then the frame
      of the first is free again. A caller that frees both frees it twice. */
  method FreedBefore(frames: set<Pfn>, own: Pfn, other: Pfn, flags: Flags)
    returns (t: PageTable, ok: bool, ghost m0: Moment, ghost m1: Moment)
    requires |frames| == 4 && own !in frames && other !in frames && own != other && flags.present && flags.owned
    ensures fresh(t) && t.Valid() && t.Accounts() && !ok && own in t.pool && other !in t.ledger.total
    ensures Blank(m0.view)
    ensures MappedPrefix(m0.view, m0.ledger, m1.view, m1.ledger, 511 * PAGE_SIZE, [own, other], 1, flags, CALLBACK_NONE)
    ensures t.View() == ZeroRange(m1.view, 511 * PAGE_SIZE, 2)
  {
    hide Accounted, Logged, Sound, Flat, MappedPrefix, Handover, ZeroRange, OwnedIn, Members, Honest, Blank;
    TwoFrames(own, other, frames);
    ghost var done;
    t, ok, m0, done := TryTwo(frames, [own, other], flags);
    m1 := Now(t);
    Discard(t, 511 * PAGE_SIZE, 2);
    MappedFreed(m0.view, m0.ledger, m1.view, m1.ledger, 511 * PAGE_SIZE, [own, other], 1, flags, CALLBACK_NONE, t.pool);
    FirstOf(m0, m1, own, other, flags);
  }

  lemma TwoFrames(own: Pfn, other: Pfn, total: set<Pfn>)
    requires own !in total && other !in total && own != other
    ensures Handover([own, other], total)
  {}

  lemma FirstOf(m0: Moment, m1: Moment, own: Pfn, other: Pfn, flags: Flags)
    requires MappedPrefix(m0.view, m0.ledger, m1.view, m1.ledger, 511 * PAGE_SIZE, [own, other], 1, flags, CALLBACK_NONE)
    requires other !in m0.ledger.total && own != other && flags.owned
    ensures own in Members([own, other][..1]) && other !in m1.ledger.total
  {
    hide MapRange, OwnedIn;
    assert [own, other][..1] == [own];
  }

  lemma NotYetMapped(f0: FlatMap, l0: Ledger, f: FlatMap, l: Ledger, pfns: seq<Pfn>, done: nat, flags: Flags)
    requires Blank(f0) && MappedPrefix(f0, l0, f, l, 511 * PAGE_SIZE, pfns, done, flags, CALLBACK_NONE) && done < PAGE_LIMIT
    ensures !f[PageAt(511 * PAGE_SIZE, done)].Present()
  {
    hide PageAt, Offset;
    OffsetPageAt(511 * PAGE_SIZE, done);
  }

  // ---- a vmm_alloc that loses a frame -----------------------------------------------------------------------

  lemma PresentLeaf(mem: Memory, root: Pfn, pool: set<Pfn>, t: Tree, v: Vpn)
    requires Sound(mem, root, pool, t) && Flat(mem, root)[v].Present()
    ensures LeafNode(v) in t.shape
  {
    hide LeafNode, Resolve;
    AbsentIsZero(mem, root, v);
    ResolveSound(mem, root, pool, t, LeafNode(v));
  }

  /** Pages 511 and 512 with frames of their own need seven frames. */
  lemma SevenFrames(mem: Memory, root: Pfn, pool: set<Pfn>, t: Tree, l: Ledger)
    requires Sound(mem, root, pool, t) && Accounted(Flat(mem, root), t.place.Keys, pool, l)
    requires forall v: Vpn :: v == 511 || v == 512 ==> Flat(mem, root)[v].Present() && Flat(mem, root)[v].Owned()
    requires Flat(mem, root)[511].pfn != Flat(mem, root)[512].pfn
    ensures |l.total| >= 7
  {
    hide Flat, Sound, LeafNode, Linked;
    var f := Flat(mem, root);
    PresentLeaf(mem, root, pool, t, 511);
    PresentLeaf(mem, root, pool, t, 512);
    Neighbours();
    FiveLevels(mem, root, pool, t);
    var own := {f[511].pfn, f[512].pfn};
    assert own <= l.owners.Keys && own !! t.place.Keys;
    assert |own + t.place.Keys| == 2 + |t.place.Keys|;
    SubsetSize(own + t.place.Keys, l.total);
  }

  lemma BlankUnmapped(f: FlatMap, addr: Addr, n: nat)
    requires Blank(f)
    ensures Total(f) && Unmapped(f, addr, n)
  {}

  /** Two pages with neighbouring tables, and six frames: vmm_alloc gets frames for both and cannot map both. It fails,
      and a frame is lost. */
  method AllocLeaks(frames: set<Pfn>, flags: Flags)
    returns (t: PageTable, r: Outcome, ghost m0: Moment, ghost pfns: seq<Pfn>, ghost done: nat)
    requires |frames| == 6 && flags.present
    ensures fresh(t) && t.Valid() && t.Accounts() && Blank(m0.view) && m0.ledger == Ledger(map[], {}, {}, frames)
    ensures Allocated(m0, Now(t), 511 * PAGE_SIZE, 2, flags, true, r, pfns, done)
    ensures r == Stopped && t.ledger.lost != {}
  {
    hide Accounted, Logged, Sound, Flat, Blank, PageAt, LeafNode, Honest;
    t := new PageTable(false);
    var ok := t.Init(frames);
    RootOnly(t.mem, t.pml4, t.pool, t.tree, frames);
    BlankUnmapped(t.View(), 511 * PAGE_SIZE, 2);
    m0 := Now(t);
    r, pfns, done := PageAlloc.Alloc(t, 511 * PAGE_SIZE, 2, flags, true);
    TwoPages(m0, t.mem, t.pml4, t.tree, Now(t), flags, r, pfns, done);
  }

  lemma RootOnly(mem: Memory, root: Pfn, pool: set<Pfn>, t: Tree, frames: set<Pfn>)
    requires Sound(mem, root, pool, t) && t.shape.Keys == {L4} && t.place.Keys + pool == frames
    ensures |frames| == |pool| + 1
  {
    hide WellFormed;
    Placed(mem, root, pool, t);
    SameCount(t.shape, t.place);
  }

  lemma TwoPages(m0: Moment, mem: Memory, root: Pfn, t: Tree, m: Moment, flags: Flags, r: Outcome, pfns: seq<Pfn>,
        done: nat)
    requires Allocated(m0, m, 511 * PAGE_SIZE, 2, flags, true, r, pfns, done) && flags.present
    requires Total(m0.view) && Unmapped(m0.view, 511 * PAGE_SIZE, 2) && |m0.pool| == 5 && |m0.ledger.total| == 6
    requires Sound(mem, root, m.pool, t) && m.view == Flat(mem, root) && Accounted(m.view, t.place.Keys, m.pool, m.ledger)
    ensures r == Stopped && m.ledger.lost != {}
  {
    hide Flat, Sound, Accounted, LeafNode, PageAt, OwnedIn, MapRange, ZeroRange, MapEntry, Offset;
    if r.Done? {
      Neighbours();
      BothMapped(m0.view, m.view, pfns, flags.(owned := true));
      SevenFrames(mem, root, m.pool, t, m.ledger);
    }
    if r.Stopped? { assert pfns[done] in Members(pfns[done..]); }
  }

  lemma BothMapped(f0: FlatMap, f: FlatMap, pfns: seq<Pfn>, flags: Flags)
    requires Total(f0) && |pfns| == 2 && pfns[0] != pfns[1] && flags.present && flags.owned
    requires f == ZeroRange(MapRange(f0, 511 * PAGE_SIZE, pfns, 2, flags, CALLBACK_NONE), 511 * PAGE_SIZE, 0)
    ensures forall v: Vpn :: v == 511 || v == 512 ==> f[v].Present() && f[v].Owned()
    ensures f[511].pfn != f[512].pfn
  {
    assert Offset(511 * PAGE_SIZE, 511) == 0 && Offset(511 * PAGE_SIZE, 512) == 1;
  }
}
