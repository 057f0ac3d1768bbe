/** The RCU variants of the intrusive list (include/sys/list.h): one writer whose stores interleave with any
    number of forward readers. */
module RcuList {
  import opened Common

  type Id = nat
  const HEAD: Id := 0

  type Links = map<Id, Id>

  /** Where the writer stands inside list_add_rcu or list_remove_rcu. */
  datatype Pc = Idle | Adding(prev: Id, next: Id, entry: Id, stores: nat) | Removing(entry: Id)

  datatype Pos = Before | On(entry: Id) | Done

  /** A forward iteration: where it is, when it began, the entries in the list ever since, the entries met. */
  datatype Reader = Reader(pos: Pos, start: nat, must: set<Id>, visited: seq<Id>)

  /** The entries in the list, the removed ones not yet reclaimed with the time of their removal, a position in
      (0, 1) for each, the time of insertion, and a clock that counts removals. */
  datatype History = History(live: set<Id>, dead: map<Id, nat>, rank: map<Id, real>, added: map<Id, nat>, clock: nat)

  /** next and prev are the shared memory. */
  datatype State = State(next: Links, prev: Links, h: History, pc: Pc, readers: map<nat, Reader>)

  // ---- the steps ------------------------------------------------------------------------------------

  datatype Action =
    | BeginAdd(prev: Id, entry: Id)   // next->prev = entry
    | StoreAdd                        // one of the remaining stores of list_add_rcu
    | Unlink(entry: Id)               // entry->prev->next = entry->next
    | Relink                          // entry->next->prev = entry->prev
    | Reclaim(entry: Id, next: Id, prev: Id)   // after a grace period the memory is reused for anything
    | BeginRead(reader: nat)
    | Advance(reader: nat)            // load the next pointer
    | EndRead(reader: nat)

  ghost predicate Member(h: History, x: Id) { x == HEAD || x in h.live }

  /** A reader that began before time t is still running. */
  ghost predicate Watched(readers: map<nat, Reader>, t: nat) { exists i :: i in readers && readers[i].start < t }

  ghost function At(pos: Pos): Id
    requires !pos.Done?
  {
    if pos.Before? then HEAD else pos.entry
  }

  ghost predicate Enabled(s: State, a: Action) {
    match a
    case BeginAdd(p, e) => s.pc.Idle? && Member(s.h, p) && !Member(s.h, e) && e !in s.h.dead && p in s.next
    case StoreAdd => s.pc.Adding?
    case Unlink(x) => s.pc.Idle? && x in s.h.live && x in s.prev && x in s.next
    case Relink => s.pc.Removing? && s.pc.entry in s.next && s.pc.entry in s.prev
    case Reclaim(d, _, _) => d in s.h.dead && s.pc != Removing(d) && !Watched(s.readers, s.h.dead[d])
    case BeginRead(i) => i !in s.readers
    case Advance(i) => i in s.readers && !s.readers[i].pos.Done? && At(s.readers[i].pos) in s.next
    case EndRead(i) => i in s.readers && s.readers[i].pos.Done?
  }

  ghost function Src(rank: map<Id, real>, x: Id): real {
    if x == HEAD then 0.0 else if x in rank then rank[x] else 0.0
  }

  ghost function Dst(rank: map<Id, real>, x: Id): real { if x == HEAD then 1.0 else Src(rank, x) }

  ghost function Place(rank: map<Id, real>, pos: Pos): real { if pos.Done? then 1.0 else Src(rank, At(pos)) }

  ghost function Insert(h: History, p: Id, n: Id, e: Id): History {
    History(h.live + {e}, h.dead, h.rank[e := (Src(h.rank, p) + Dst(h.rank, n)) / 2.0], h.added[e := h.clock], h.clock)
  }

  ghost function Retire(h: History, x: Id): History {
    History(h.live - {x}, h.dead[x := h.clock + 1], h.rank, h.added, h.clock + 1)
  }

  ghost function Drop(h: History, d: Id): History { History(h.live, h.dead - {d}, h.rank, h.added, h.clock) }

  ghost function StoreOne(s: State): State
    requires s.pc.Adding?
  {
    var Adding(p, n, e, k) := s.pc;
    if k == 1 then State(s.next[e := n], s.prev, s.h, Adding(p, n, e, 2), s.readers)
    else if k == 2 then State(s.next, s.prev[e := p], s.h, Adding(p, n, e, 3), s.readers)
    else State(s.next[p := e], s.prev, Insert(s.h, p, n, e), Idle, s.readers)
  }

  /** Leaving the list ends the promise to the running readers. */
  ghost function Forget(r: Reader, x: Id): Reader { Reader(r.pos, r.start, r.must - {x}, r.visited) }

  ghost function ForgetAll(readers: map<nat, Reader>, x: Id): map<nat, Reader> {
    map i | i in readers :: Forget(readers[i], x)
  }

  ghost function Move(r: Reader, n: Id): Reader {
    if n == HEAD then Reader(Done, r.start, r.must, r.visited) else Reader(On(n), r.start, r.must, r.visited + [n])
  }

  ghost function Apply(s: State, a: Action): State
    requires Enabled(s, a)
  {
    match a
    case BeginAdd(p, e) => State(s.next, s.prev[s.next[p] := e], s.h, Adding(p, s.next[p], e, 1), s.readers)
    case StoreAdd => StoreOne(s)
    case Unlink(x) =>
      State(s.next[s.prev[x] := s.next[x]], s.prev, Retire(s.h, x), Removing(x), ForgetAll(s.readers, x))
    case Relink => State(s.next, s.prev[s.next[s.pc.entry] := s.prev[s.pc.entry]], s.h, Idle, s.readers)
    case Reclaim(d, n, p) => State(s.next[d := n], s.prev[d := p], Drop(s.h, d), s.pc, s.readers)
    case BeginRead(i) => State(s.next, s.prev, s.h, s.pc, s.readers[i := Reader(Before, s.h.clock, s.h.live, [])])
    case Advance(i) =>
      State(s.next, s.prev, s.h, s.pc, s.readers[i := Move(s.readers[i], s.next[At(s.readers[i].pos)])])
    case EndRead(i) => State(s.next, s.prev, s.h, s.pc, s.readers - {i})
  }

  // ---- the invariant --------------------------------------------------------------------------------

  ghost predicate Ordered(h: History) {
    && HEAD !in h.live && HEAD !in h.dead && h.live !! h.dead.Keys
    && (forall x :: x in h.live ==> x in h.rank && 0.0 < h.rank[x] < 1.0 && x in h.added && h.added[x] <= h.clock)
    && (forall d :: d in h.dead ==> d in h.rank && 0.0 < h.rank[d] < 1.0 && h.dead[d] <= h.clock)
    && (forall x, y :: x in h.live && y in h.live && h.rank[x] == h.rank[y] ==> x == y)
    && (forall x, d :: x in h.live && d in h.dead && h.rank[x] == h.rank[d] ==> h.dead[d] <= h.added[x])
  }

  /** n follows x with no entry of the list in between. */
  ghost predicate Hop(h: History, x: Id, n: Id) {
    && Member(h, n) && Src(h.rank, x) < Dst(h.rank, n)
    && forall y :: y in h.live ==> Src(h.rank, y) <= Src(h.rank, x) || Dst(h.rank, n) <= Src(h.rank, y)
  }

  ghost predicate Linked(next: Links, h: History) { forall x :: Member(h, x) ==> x in next && Hop(h, x, next[x]) }

  /** prev with the pending store of the writer taken as done or taken back. */
  ghost function Settled(next: Links, prev: Links, pc: Pc): Links {
    match pc
    case Idle => prev
    case Adding(p, n, _, _) => prev[n := p]
    case Removing(x) => if x in next && x in prev then prev[next[x] := prev[x]] else prev
  }

  /** next and prev are inverse to each other at x, and stay in the list. */
  ghost predicate BackAt(next: Links, prev: Links, h: History, x: Id) {
    && x in next && x in prev && Member(h, prev[x]) && Member(h, next[x])
    && prev[x] in next && next[prev[x]] == x && next[x] in prev && prev[next[x]] == x
  }

  ghost predicate Back(next: Links, prev: Links, h: History) { forall x :: Member(h, x) ==> BackAt(next, prev, h, x) }

  ghost predicate PcOk(next: Links, prev: Links, h: History, pc: Pc) {
    match pc
    case Idle => true
    case Adding(p, n, e, k) =>
      && Member(h, p) && Member(h, n) && p in next && next[p] == n
      && !Member(h, e) && e !in h.dead && 1 <= k <= 3
      && n in prev && prev[n] == e
      && (k >= 2 ==> e in next && next[e] == n)
      && (k >= 3 ==> e in prev && prev[e] == p)
    case Removing(x) => x in h.dead && x in next && x in prev && Member(h, next[x])
  }

  /** A removed entry still leads forward, past nothing but entries added after its removal. */
  ghost predicate Trail(next: Links, h: History, d: Id)
    requires d in h.dead
  {
    d in next && Onward(h, d, h.dead[d], next[d])
  }

  ghost predicate Onward(h: History, d: Id, t: nat, n: Id) {
    && (Member(h, n) || (n in h.dead && t < h.dead[n]))
    && Src(h.rank, d) < Dst(h.rank, n)
    && forall y :: y in h.live && y in h.added && Src(h.rank, d) <= Src(h.rank, y) < Dst(h.rank, n) && y != d ==>
      t <= h.added[y]
  }

  /** The entry has been in the list at some time since start. */
  ghost predicate Seen(h: History, x: Id, start: nat) { x in h.live || (x in h.dead && start < h.dead[x]) }

  /** What the reader is owed is either met or still ahead. */
  ghost predicate Owed(h: History, r: Reader) {
    && r.must <= h.live
    && forall x :: x in r.must ==>
      x in h.added && h.added[x] <= r.start && (x in r.visited || Place(h.rank, r.pos) < Src(h.rank, x))
  }

  /** What the reader met lies behind it, in order. */
  ghost predicate Record(h: History, r: Reader) {
    && (forall x :: x in r.visited ==> Seen(h, x, r.start) && Src(h.rank, x) <= Place(h.rank, r.pos))
    && (forall i, j :: 0 <= i < j < |r.visited| ==> Src(h.rank, r.visited[i]) < Src(h.rank, r.visited[j]))
  }

  ghost predicate ReaderOk(h: History, r: Reader) {
    r.start <= h.clock && (r.pos.On? ==> Seen(h, r.pos.entry, r.start)) && Owed(h, r) && Record(h, r)
  }

  ghost predicate Trails(next: Links, h: History, readers: map<nat, Reader>) {
    forall d :: d in h.dead && Watched(readers, h.dead[d]) ==> Trail(next, h, d)
  }

  ghost predicate ReadersOk(h: History, readers: map<nat, Reader>) {
    forall i :: i in readers ==> ReaderOk(h, readers[i])
  }

  ghost predicate Inv(s: State) {
    && Ordered(s.h) && Linked(s.next, s.h)
    && Back(s.next, Settled(s.next, s.prev, s.pc), s.h) && PcOk(s.next, s.prev, s.h, s.pc)
    && Trails(s.next, s.h, s.readers) && ReadersOk(s.h, s.readers)
  }

  ghost function Initial(): State {
    State(map[HEAD := HEAD], map[HEAD := HEAD], History({}, map[], map[], map[], 0), Idle, map[])
  }

  lemma InitialInv()
    ensures Inv(Initial())
  {
    var s := Initial();
    assert Ordered(s.h);
    assert forall x :: Member(s.h, x) ==> x == HEAD;
    assert Hop(s.h, HEAD, HEAD);
    assert Linked(s.next, s.h);
    assert BackAt(s.next, s.prev, s.h, HEAD);
    assert Back(s.next, Settled(s.next, s.prev, s.pc), s.h);
    assert PcOk(s.next, s.prev, s.h, s.pc);
    assert Trails(s.next, s.h, s.readers) && ReadersOk(s.h, s.readers);
  }

  // ---- readers --------------------------------------------------------------------------------------

  lemma FromHop(h: History, x: Id, n: Id, r: Reader)
    requires Hop(h, x, n) && Ordered(h) && Owed(h, r) && (x == HEAD || x in h.live)
    ensures (n == HEAD || Seen(h, n, r.start)) && Src(h.rank, x) < Dst(h.rank, n)
    ensures forall y :: y in r.must ==> Src(h.rank, y) <= Src(h.rank, x) || Dst(h.rank, n) <= Src(h.rank, y)
  {
    hide Src, Dst;
  }

  lemma FromTrail(next: Links, h: History, d: Id, r: Reader)
    requires d in h.dead && Trail(next, h, d) && r.start < h.dead[d] && Ordered(h) && Owed(h, r)
    ensures (next[d] == HEAD || Seen(h, next[d], r.start)) && Src(h.rank, d) < Dst(h.rank, next[d])
    ensures forall y :: y in r.must ==> Src(h.rank, y) <= Src(h.rank, d) || Dst(h.rank, next[d]) <= Src(h.rank, y)
  {
    hide Src, Dst;
  }

  lemma MoveOwed(h: History, r: Reader, n: Id)
    requires Owed(h, r) && Ordered(h) && !r.pos.Done?
    requires n == HEAD || Seen(h, n, r.start)
    requires forall y :: y in r.must ==> Src(h.rank, y) <= Src(h.rank, At(r.pos)) || Dst(h.rank, n) <= Src(h.rank, y)
    ensures Owed(h, Move(r, n))
  {
    var r' := Move(r, n);
    forall x | x in r'.must ensures x in r'.visited || Place(h.rank, r'.pos) < Src(h.rank, x) {
      assert x in h.live && h.rank[x] < 1.0;
      if x !in r.visited && n != HEAD && h.rank[x] == h.rank[n] { SameRank(h, r, x, n); }
    }
  }

  lemma SameRank(h: History, r: Reader, x: Id, n: Id)
    requires Ordered(h) && Owed(h, r) && x in r.must && Seen(h, n, r.start) && h.rank[x] == h.rank[n]
    ensures x == n
  {}

  lemma MoveRecord(h: History, r: Reader, n: Id)
    requires Record(h, r) && Ordered(h) && !r.pos.Done?
    requires n == HEAD || Seen(h, n, r.start)
    requires Src(h.rank, At(r.pos)) < Dst(h.rank, n)
    ensures Record(h, Move(r, n))
  {
    hide Seen, Src, Ordered;
    var v := Move(r, n).visited;
    forall i, j | 0 <= i < j < |v| ensures Src(h.rank, v[i]) < Src(h.rank, v[j]) { assert v[i] in r.visited; }
  }

  /** Every tracked next pointer leads forward, to an entry seen since the reader began, past nothing it is owed. */
  lemma Forward(next: Links, h: History, r: Reader)
    requires Ordered(h) && Linked(next, h) && ReaderOk(h, r) && !r.pos.Done? && At(r.pos) in next
    requires forall d :: d in h.dead && r.start < h.dead[d] ==> Trail(next, h, d)
    ensures var x := At(r.pos); var n := next[x];
      && (n == HEAD || Seen(h, n, r.start)) && Src(h.rank, x) < Dst(h.rank, n)
      && forall y :: y in r.must ==> Src(h.rank, y) <= Src(h.rank, x) || Dst(h.rank, n) <= Src(h.rank, y)
  {
    hide Src, Dst, Hop, Trail, Ordered, Owed, Record;
    var x := At(r.pos);
    if Member(h, x) { FromHop(h, x, next[x], r); } else { FromTrail(next, h, x, r); }
  }

  lemma AdvanceOk(next: Links, h: History, r: Reader)
    requires Ordered(h) && Linked(next, h) && ReaderOk(h, r) && !r.pos.Done? && At(r.pos) in next
    requires forall d :: d in h.dead && r.start < h.dead[d] ==> Trail(next, h, d)
    ensures ReaderOk(h, Move(r, next[At(r.pos)]))
  {
    hide Src, Dst, Linked, Trail, Ordered, Owed, Record;
    Forward(next, h, r);
    MoveOwed(h, r, next[At(r.pos)]);
    MoveRecord(h, r, next[At(r.pos)]);
  }

  lemma Tracked(s: State, i: nat)
    requires i in s.readers && Trails(s.next, s.h, s.readers)
    ensures forall d :: d in s.h.dead && s.readers[i].start < s.h.dead[d] ==> Trail(s.next, s.h, d)
  {
    hide Trail;
    forall d | d in s.h.dead && s.readers[i].start < s.h.dead[d] ensures Trail(s.next, s.h, d) {
      assert Watched(s.readers, s.h.dead[d]);
    }
  }

  lemma AdvanceInv(s: State, i: nat)
    requires Inv(s) && Enabled(s, Advance(i))
    ensures Inv(Apply(s, Advance(i)))
  {
    hide Ordered, Linked, Back, PcOk, ReaderOk, Trail, Settled;
    var t := Apply(s, Advance(i));
    Tracked(s, i);
    AdvanceOk(s.next, s.h, s.readers[i]);
    SameWatch(s.readers, t.readers);
  }

  lemma SameWatch(a: map<nat, Reader>, b: map<nat, Reader>)
    requires forall i :: i in b ==> i in a && b[i].start == a[i].start
    ensures forall t: nat :: Watched(b, t) ==> Watched(a, t)
  {
    forall t: nat | Watched(b, t) ensures Watched(a, t) {
      var i :| i in b && b[i].start < t;
      assert i in a && a[i].start < t;
    }
  }

  lemma EndReadInv(s: State, i: nat)
    requires Inv(s) && Enabled(s, EndRead(i))
    ensures Inv(Apply(s, EndRead(i)))
  {
    hide Ordered, Linked, Back, PcOk, ReaderOk, Trail, Settled;
    SameWatch(s.readers, s.readers - {i});
  }

  /** A new reader watches no removed entry. */
  lemma BeginReadInv(s: State, i: nat)
    requires Inv(s) && Enabled(s, BeginRead(i))
    ensures Inv(Apply(s, BeginRead(i)))
  {
    hide Linked, Back, PcOk, Trail, Settled, Watched;
    var t := Apply(s, BeginRead(i));
    assert ReaderOk(s.h, t.readers[i]);
    forall d | d in s.h.dead && Watched(t.readers, s.h.dead[d]) ensures Watched(s.readers, s.h.dead[d]) {
      NewWatch(s.readers, i, t.readers[i], s.h.dead[d]);
    }
  }

  lemma NewWatch(a: map<nat, Reader>, i: nat, r: Reader, t: nat)
    requires Watched(a[i := r], t) && t <= r.start && i !in a
    ensures Watched(a, t)
  {
    var j :| j in a[i := r] && a[i := r][j].start < t;
    assert j in a && a[j].start < t;
  }

  // ---- adding ---------------------------------------------------------------------------------------

  lemma BeginAddInv(s: State, p: Id, e: Id)
    requires Inv(s) && Enabled(s, BeginAdd(p, e))
    ensures Inv(Apply(s, BeginAdd(p, e)))
  {
    hide Ordered, Linked, ReadersOk, Trails;
    var t := Apply(s, BeginAdd(p, e));
    assert s.prev[s.next[p]] == p;
    assert Settled(t.next, t.prev, t.pc) == s.prev;
  }

  /** Stores to an entry outside the list change nothing for the list or the trails. */
  lemma OutsideStore(next: Links, h: History, readers: map<nat, Reader>, e: Id, n: Id)
    requires !Member(h, e) && e !in h.dead && Linked(next, h) && Trails(next, h, readers)
    ensures Linked(next[e := n], h) && Trails(next[e := n], h, readers)
  {
    hide Hop, Onward, Watched;
    forall d | d in h.dead && Watched(readers, h.dead[d]) ensures Trail(next[e := n], h, d) { assert Trail(next, h, d); }
  }

  lemma StoreInv(s: State)
    requires Inv(s) && Enabled(s, StoreAdd) && s.pc.stores < 3
    ensures Inv(Apply(s, StoreAdd))
  {
    hide Ordered, ReadersOk, Linked, Trails, Back;
    var Adding(p, n, e, k) := s.pc;
    if k == 1 {
      OutsideStore(s.next, s.h, s.readers, e, n);
      OutsideBack(s.next, s.prev[n := p], s.h, e, n);
    } else {
      OutsideBack(s.next, s.prev[n := p], s.h, e, p);
      assert s.prev[e := p][n := p] == s.prev[n := p][e := p];
    }
  }

  lemma OutsideBack(next: Links, prev: Links, h: History, e: Id, n: Id)
    requires !Member(h, e) && Back(next, prev, h)
    ensures Back(next[e := n], prev, h) && Back(next, prev[e := n], h)
  {}

  /** e is about to be published between the neighbours p and n. */
  ghost predicate Fresh(h: History, p: Id, n: Id, e: Id) {
    Ordered(h) && Member(h, p) && Hop(h, p, n) && !Member(h, e) && e !in h.dead
  }

  lemma InsertRank(h: History, p: Id, n: Id, e: Id)
    requires Fresh(h, p, n, e)
    ensures var rank := Insert(h, p, n, e).rank;
      && Src(h.rank, p) < rank[e] < Dst(h.rank, n) && 0.0 < rank[e] < 1.0
      && forall x :: x != e ==> Src(rank, x) == Src(h.rank, x) && Dst(rank, x) == Dst(h.rank, x)
  {}

  lemma InsertOrdered(h: History, p: Id, n: Id, e: Id)
    requires Fresh(h, p, n, e)
    ensures Ordered(Insert(h, p, n, e))
  {
    InsertRank(h, p, n, e);
    var h' := Insert(h, p, n, e);
    forall x | x in h.live ensures h'.rank[x] != h'.rank[e] { assert h'.rank[x] == Src(h.rank, x); }
  }

  lemma InsertHop(h: History, p: Id, n: Id, e: Id, x: Id, m: Id)
    requires Fresh(h, p, n, e) && Member(h, x) && x != p && Hop(h, x, m)
    ensures Hop(Insert(h, p, n, e), x, m)
  {
    hide Src;
    InsertRank(h, p, n, e);
    var h' := Insert(h, p, n, e);
    Gap(h, p, n, x, m, h'.rank[e]);
    EntryRank(h', e);
  }

  lemma EntryRank(h: History, e: Id)
    requires e != HEAD && e in h.rank
    ensures Src(h.rank, e) == h.rank[e]
  {}

  /** A position between two neighbours lies in no other gap of the list. */
  lemma Gap(h: History, p: Id, n: Id, x: Id, m: Id, z: real)
    requires Ordered(h) && Member(h, p) && Hop(h, p, n) && Member(h, x) && Hop(h, x, m) && x != p
    requires Src(h.rank, p) < z < Dst(h.rank, n)
    ensures z <= Src(h.rank, x) || Dst(h.rank, m) <= z
  {
    if x != HEAD && p != HEAD { assert h.rank[x] != h.rank[p]; }
  }

  lemma InsertNew(h: History, p: Id, n: Id, e: Id)
    requires Fresh(h, p, n, e)
    ensures Hop(Insert(h, p, n, e), p, e) && Hop(Insert(h, p, n, e), e, n)
  {
    InsertRank(h, p, n, e);
  }

  lemma InsertLinked(next: Links, h: History, p: Id, n: Id, e: Id)
    requires Fresh(h, p, n, e) && Linked(next, h) && e in next && next[e] == n
    ensures Linked(next[p := e], Insert(h, p, n, e))
  {
    hide Hop, Ordered;
    var h' := Insert(h, p, n, e);
    InsertNew(h, p, n, e);
    forall x | Member(h, x) && x != p ensures Hop(h', x, next[x]) { InsertHop(h, p, n, e, x, next[x]); }
  }

  lemma InsertTrail(h: History, p: Id, n: Id, e: Id, d: Id)
    requires Fresh(h, p, n, e) && d in h.dead
    ensures forall m :: Onward(h, d, h.dead[d], m) ==> Onward(Insert(h, p, n, e), d, h.dead[d], m)
  {
    hide Src, Hop;
    InsertRank(h, p, n, e);
    var h' := Insert(h, p, n, e);
    forall m | Onward(h, d, h.dead[d], m) ensures Onward(h', d, h.dead[d], m) {
      forall y | y in h'.live && y in h'.added && Src(h'.rank, d) <= Src(h'.rank, y) < Dst(h'.rank, m) && y != d
        ensures h.dead[d] <= h'.added[y] {
        if y != e { assert Src(h.rank, d) <= Src(h.rank, y) < Dst(h.rank, m); }
      }
    }
  }

  lemma InsertReader(h: History, p: Id, n: Id, e: Id, r: Reader)
    requires Fresh(h, p, n, e) && ReaderOk(h, r)
    ensures ReaderOk(Insert(h, p, n, e), r)
  {
    hide Src, Hop, Ordered;
    InsertRank(h, p, n, e);
    var h' := Insert(h, p, n, e);
    assert forall x :: x in r.visited ==> x != e;
    assert forall x :: x in r.must ==> x != e;
    assert Place(h'.rank, r.pos) == Place(h.rank, r.pos) by { if !r.pos.Done? { assert At(r.pos) != e; } }
  }

  lemma InsertBack(next: Links, prev: Links, h: History, p: Id, n: Id, e: Id)
    requires Member(h, p) && Member(h, n) && !Member(h, e) && Back(next, prev[n := p], h)
    requires next[p] == n && n in prev && prev[n] == e && e in next && next[e] == n && e in prev && prev[e] == p
    ensures Back(next[p := e], prev, Insert(h, p, n, e))
  {
    var was, h' := prev[n := p], Insert(h, p, n, e);
    assert BackAt(next[p := e], prev, h', e) by { assert BackAt(next, was, h, p); }
    assert BackAt(next, was, h, p) && BackAt(next, was, h, n);
    forall x | Member(h, x) ensures BackAt(next[p := e], prev, h', x) {
      assert BackAt(next, was, h, x);
      if x == n {
        assert prev[x] == e && e in h'.live;
      } else {
        assert prev[x] == was[x];
      }
    }
    forall x | Member(h', x) ensures BackAt(next[p := e], prev, h', x) { if x != e { assert Member(h, x); } }
  }

  lemma PublishInv(s: State)
    requires Inv(s) && Enabled(s, StoreAdd) && s.pc.stores == 3
    ensures Inv(Apply(s, StoreAdd))
  {
    hide Ordered, Back, Watched, Insert, ReaderOk, Hop, Onward;
    var Adding(p, n, e, k) := s.pc;
    InsertOrdered(s.h, p, n, e);
    InsertLinked(s.next, s.h, p, n, e);
    InsertBack(s.next, s.prev, s.h, p, n, e);
    InsertTrails(s.next, s.h, p, n, e, s.readers);
    forall i | i in s.readers ensures ReaderOk(Insert(s.h, p, n, e), s.readers[i]) {
      InsertReader(s.h, p, n, e, s.readers[i]);
    }
  }

  lemma InsertTrails(next: Links, h: History, p: Id, n: Id, e: Id, readers: map<nat, Reader>)
    requires Fresh(h, p, n, e) && Trails(next, h, readers)
    ensures Trails(next[p := e], Insert(h, p, n, e), readers)
  {
    hide Watched, Hop, Onward;
    var h' := Insert(h, p, n, e);
    forall d | d in h'.dead && Watched(readers, h'.dead[d]) ensures Trail(next[p := e], h', d) {
      assert Trail(next, h, d) && d != p;
      InsertTrail(h, p, n, e, d);
    }
  }

  // ---- removing -------------------------------------------------------------------------------------

  lemma RetireOrdered(h: History, x: Id)
    requires Ordered(h) && x in h.live
    ensures Ordered(Retire(h, x))
  {}

  /** Skipping x joins its two gaps. */
  lemma RetireHop(h: History, p: Id, x: Id, n: Id)
    requires Ordered(h) && x in h.live && Member(h, p) && Hop(h, p, x) && Hop(h, x, n) && n != x && p != x
    ensures Hop(Retire(h, x), p, n)
  {
    var h' := Retire(h, x);
    forall y | y in h'.live ensures Src(h'.rank, y) <= Src(h'.rank, p) || Dst(h'.rank, n) <= Src(h'.rank, y) {
      assert h.rank[y] != h.rank[x];
    }
  }

  lemma RetireOtherHop(h: History, x: Id, y: Id, m: Id)
    requires Hop(h, y, m) && m != x
    ensures Hop(Retire(h, x), y, m)
  {
    hide Src, Dst;
  }

  lemma RetireLinked(next: Links, prev: Links, h: History, x: Id, p: Id, n: Id)
    requires Ordered(h) && x in h.live && Linked(next, h) && Back(next, prev, h)
    requires x in prev && x in next && prev[x] == p && next[x] == n
    ensures Linked(next[p := n], Retire(h, x))
  {
    hide Hop, Ordered;
    Apart(next, prev, h, x);
    RetireHop(h, p, x, n);
    var h' := Retire(h, x);
    forall y | Member(h', y) && y != p ensures y in next && Hop(h', y, next[y]) {
      assert BackAt(next, prev, h, y) && BackAt(next, prev, h, x);
      RetireOtherHop(h, x, y, next[y]);
    }
  }

  /** An entry of the list is not its own neighbour. */
  lemma Apart(next: Links, prev: Links, h: History, x: Id)
    requires Ordered(h) && x in h.live && Linked(next, h) && Back(next, prev, h)
    ensures Member(h, x) && BackAt(next, prev, h, x) && prev[x] != x && next[x] != x
  {
    assert Member(h, x) && Hop(h, x, next[x]);
    assert Src(h.rank, x) < Dst(h.rank, next[x]);
  }

  lemma RetireBack(next: Links, prev: Links, h: History, x: Id)
    requires x in h.live && Back(next, prev, h) && Member(h, x) && BackAt(next, prev, h, x) && prev[x] != x && next[x] != x
    requires x != HEAD
    ensures Back(next[prev[x] := next[x]], prev[next[x] := prev[x]], Retire(h, x))
  {
    var p, n := prev[x], next[x];
    var h' := Retire(h, x);
    assert BackAt(next, prev, h, p) && BackAt(next, prev, h, n);
    forall y | Member(h', y) ensures BackAt(next[p := n], prev[n := p], h', y) {
      assert Member(h, y) && y != x;
      assert BackAt(next, prev, h, y);
    }
  }

  lemma RetireTrails(next: Links, h: History, p: Id, x: Id, readers: map<nat, Reader>)
    requires Ordered(h) && x in h.live && Linked(next, h) && Trails(next, h, readers) && Member(h, p) && next[x] != x
    requires p != x
    ensures Trails(next[p := next[x]], Retire(h, x), ForgetAll(readers, x))
  {
    hide Watched, Hop, Onward, Ordered;
    var h', next' := Retire(h, x), next[p := next[x]];
    SameWatch(readers, ForgetAll(readers, x));
    assert x in next && Hop(h, x, next[x]);
    RetireOwn(h, x, next[x]);
    forall d | d in h'.dead && d != x && Watched(ForgetAll(readers, x), h'.dead[d]) ensures Trail(next', h', d) {
      assert Trail(next, h, d);
      RetireTrail(h, x, d, next[d]);
    }
  }

  lemma RetireOwn(h: History, x: Id, n: Id)
    requires Ordered(h) && x in h.live && Hop(h, x, n) && n != x
    ensures Onward(Retire(h, x), x, h.clock + 1, n) && HEAD !in Retire(h, x).dead
  {
    var h' := Retire(h, x);
    forall y | y in h'.live && Src(h.rank, x) <= Src(h.rank, y) < Dst(h.rank, n) ensures false {}
  }

  lemma RetireTrail(h: History, x: Id, d: Id, m: Id)
    requires Ordered(h) && x in h.live && d in h.dead && Onward(h, d, h.dead[d], m)
    ensures Onward(Retire(h, x), d, h.dead[d], m) && Retire(h, x).dead[d] == h.dead[d] && !Member(h, d)
  {
    hide Src, Dst;
  }

  lemma RetireReader(h: History, x: Id, r: Reader)
    requires Ordered(h) && x in h.live && ReaderOk(h, r)
    ensures ReaderOk(Retire(h, x), Forget(r, x))
  {
    hide Src, Dst;
    var h', r' := Retire(h, x), Forget(r, x);
    forall y | Seen(h, y, r.start) ensures Seen(h', y, r.start) {}
    assert Place(h'.rank, r'.pos) == Place(h.rank, r.pos);
  }

  lemma UnlinkInv(s: State, x: Id)
    requires Inv(s) && Enabled(s, Unlink(x))
    ensures Inv(Apply(s, Unlink(x)))
  {
    hide Ordered, Linked, Back, Trails, ReaderOk, Hop;
    var t := Apply(s, Unlink(x));
    Apart(s.next, s.prev, s.h, x);
    RetireOrdered(s.h, x);
    RetireLinked(s.next, s.prev, s.h, x, s.prev[x], s.next[x]);
    NotHead(s.h, x);
    RetireBack(s.next, s.prev, s.h, x);
    RetireTrails(s.next, s.h, s.prev[x], x, s.readers);
    forall i | i in t.readers ensures ReaderOk(t.h, t.readers[i]) { RetireReader(s.h, x, s.readers[i]); }
    assert Settled(t.next, t.prev, t.pc) == s.prev[s.next[x] := s.prev[x]];
  }

  lemma NotHead(h: History, x: Id)
    requires Ordered(h) && x in h.live
    ensures x != HEAD
  {}

  lemma RelinkInv(s: State)
    requires Inv(s) && Enabled(s, Relink)
    ensures Inv(Apply(s, Relink))
  {
    hide Ordered, Linked, Back, Trails, ReadersOk;
  }

  // ---- reclaiming -----------------------------------------------------------------------------------

  lemma DropTrails(next: Links, h: History, d: Id, n: Id, readers: map<nat, Reader>)
    requires Ordered(h) && d in h.dead && Trails(next, h, readers) && !Watched(readers, h.dead[d])
    ensures Trails(next[d := n], Drop(h, d), readers)
  {
    hide Src, Dst, Ordered;
    var h' := Drop(h, d);
    forall c | c in h'.dead && Watched(readers, h'.dead[c]) ensures Trail(next[d := n], h', c) {
      assert Trail(next, h, c);
    }
  }

  lemma DropReader(h: History, d: Id, r: Reader)
    requires Ordered(h) && d in h.dead && ReaderOk(h, r) && h.dead[d] <= r.start
    ensures ReaderOk(Drop(h, d), r)
  {
    hide Src, Dst;
    forall x | Seen(h, x, r.start) ensures Seen(Drop(h, d), x, r.start) {}
    assert Place(Drop(h, d).rank, r.pos) == Place(h.rank, r.pos);
  }

  lemma DropLists(next: Links, prev: Links, h: History, d: Id, n: Id, p: Id)
    requires Ordered(h) && d in h.dead && Linked(next, h) && Back(next, prev, h)
    ensures Linked(next[d := n], Drop(h, d)) && Back(next[d := n], prev[d := p], Drop(h, d)) && !Member(h, d)
  {
    hide Hop;
    var h' := Drop(h, d);
    forall x | Member(h', x) ensures x in next && x != d && Hop(h', x, next[x]) {
      assert Member(h, x);
      DropHop(h, d, x, next[x]);
    }
    forall x | Member(h', x) ensures BackAt(next[d := n], prev[d := p], h', x) {
      assert Member(h, x) && BackAt(next, prev, h, x);
    }
  }

  lemma DropOrdered(h: History, d: Id)
    requires Ordered(h) && d in h.dead
    ensures Ordered(Drop(h, d)) && !Member(h, d)
  {}

  lemma DropHop(h: History, d: Id, x: Id, n: Id)
    ensures Hop(h, x, n) <==> Hop(Drop(h, d), x, n)
  {
    hide Src, Dst;
  }

  lemma ReclaimInv(s: State, d: Id, n: Id, p: Id)
    requires Inv(s) && Enabled(s, Reclaim(d, n, p))
    ensures Inv(Apply(s, Reclaim(d, n, p)))
  {
    hide Linked, Back, Trails, ReaderOk, Ordered;
    DropOrdered(s.h, d);
    var t := Apply(s, Reclaim(d, n, p));
    var prev := Settled(s.next, s.prev, s.pc);
    DropLists(s.next, prev, s.h, d, n, p);
    DropTrails(s.next, s.h, d, n, s.readers);
    forall i | i in s.readers ensures ReaderOk(t.h, s.readers[i]) { DropReader(s.h, d, s.readers[i]); }
    assert Settled(t.next, t.prev, t.pc) == prev[d := p];
  }

  // ---- whole runs -----------------------------------------------------------------------------------

  lemma StepInv(s: State, a: Action)
    requires Inv(s) && Enabled(s, a)
    ensures Inv(Apply(s, a))
  {
    hide Inv, Apply, Enabled;
    match a
    case BeginAdd(p, e) => BeginAddInv(s, p, e);
    case StoreAdd => StoreAddInv(s);
    case Unlink(x) => UnlinkInv(s, x);
    case Relink => RelinkInv(s);
    case Reclaim(d, n, p) => ReclaimInv(s, d, n, p);
    case BeginRead(i) => BeginReadInv(s, i);
    case Advance(i) => AdvanceInv(s, i);
    case EndRead(i) => EndReadInv(s, i);
  }

  lemma StoreAddInv(s: State)
    requires Inv(s) && Enabled(s, StoreAdd)
    ensures Inv(Apply(s, StoreAdd))
  {
    assert s.pc.stores <= 3;
    hide Inv, Apply;
    if s.pc.stores < 3 { StoreInv(s); } else { PublishInv(s); }
  }

  ghost predicate Possible(s: State, run: seq<Action>)
    decreases |run|
  {
    run == [] || (Enabled(s, run[0]) && Possible(Apply(s, run[0]), run[1..]))
  }

  ghost function After(s: State, run: seq<Action>): State
    requires Possible(s, run)
    decreases |run|
  {
    if run == [] then s else After(Apply(s, run[0]), run[1..])
  }

  /** Every interleaving of the writer's stores, the readers' loads and reclamation keeps the invariant. */
  lemma {:induction false} RunInv(s: State, run: seq<Action>)
    requires Inv(s) && Possible(s, run)
    ensures Inv(After(s, run))
    decreases |run|
  {
    hide Inv, Enabled, Apply;
    if run == [] {
    } else {
      StepInv(s, run[0]);
      RunInv(Apply(s, run[0]), run[1..]);
    }
  }

  /** A running reader can always take its next step, on memory that has not been reclaimed; it meets only entries
      that were in the list since it began, each once, in list order; and at the end it has met all it was owed. */
  ghost predicate Safe(s: State, i: nat)
    requires i in s.readers
  {
    var r := s.readers[i];
    && (!r.pos.Done? ==> Enabled(s, Advance(i)))
    && (r.pos.On? ==> r.pos.entry in s.h.live || r.pos.entry in s.h.dead)
    && (forall x :: x in r.visited ==> Seen(s.h, x, r.start))
    && (forall j, k :: 0 <= j < k < |r.visited| ==>
      r.visited[j] != r.visited[k] && Src(s.h.rank, r.visited[j]) < Src(s.h.rank, r.visited[k]))
    && (r.pos.Done? ==> forall x :: x in r.must ==> x in r.visited)
  }

  lemma InvSafe(s: State, i: nat)
    requires Inv(s) && i in s.readers
    ensures Safe(s, i)
  {
    hide Linked, Back, PcOk, Trails, Src, Owed, Ordered, Enabled;
    CanAdvance(s, i);
    assert ReaderOk(s.h, s.readers[i]);
    if s.readers[i].pos.Done? { AllMet(s.h, s.readers[i]); }
  }

  lemma ReadersSafe(run: seq<Action>, i: nat)
    requires Possible(Initial(), run) && i in After(Initial(), run).readers
    ensures Safe(After(Initial(), run), i)
  {
    hide Possible, After, Inv, Safe;
    InitialInv();
    RunInv(Initial(), run);
    InvSafe(After(Initial(), run), i);
  }

  lemma CanAdvance(s: State, i: nat)
    requires Inv(s) && i in s.readers
    ensures !s.readers[i].pos.Done? ==> Enabled(s, Advance(i))
  {
    hide Hop, Back, Onward, PcOk, Owed, Record;
    var r := s.readers[i];
    assert ReaderOk(s.h, r);
    if !r.pos.Done? {
      var x := At(r.pos);
      if !Member(s.h, x) {
        assert Watched(s.readers, s.h.dead[x]);
        assert Trail(s.next, s.h, x);
      }
    }
  }

  lemma AllMet(h: History, r: Reader)
    requires Ordered(h) && ReaderOk(h, r) && r.pos.Done?
    ensures forall x :: x in r.must ==> x in r.visited
  {
    forall x | x in r.must ensures x in r.visited { assert x in h.live && h.rank[x] < 1.0; }
  }

  /** What a reader is owed: the entries of the list when it began, less those unlinked since. */
  lemma {:induction false} OwedIs(s: State, run: seq<Action>, i: nat, x: Id)
    requires Possible(s, run) && i in s.readers && EndRead(i) !in run
    ensures i in After(s, run).readers
    ensures x in After(s, run).readers[i].must <==> x in s.readers[i].must && Unlink(x) !in run
    decreases |run|
  {
    if run == [] {
    } else {
      var t := Apply(s, run[0]);
      assert i in t.readers && (x in t.readers[i].must <==> x in s.readers[i].must && run[0] != Unlink(x));
      OwedIs(t, run[1..], i, x);
    }
  }

  /** An entry that is in the list from the beginning of an iteration to its end is met by it. */
  lemma StayingEntryMet(before: seq<Action>, i: nat, during: seq<Action>, x: Id)
    requires Possible(Initial(), before) && Enabled(After(Initial(), before), BeginRead(i))
    requires var s := After(Initial(), before);
      Possible(Apply(s, BeginRead(i)), during) && EndRead(i) !in during && Unlink(x) !in during && x in s.h.live
    ensures var t := After(Apply(After(Initial(), before), BeginRead(i)), during);
      i in t.readers && (t.readers[i].pos.Done? ==> x in t.readers[i].visited)
  {
    hide Possible, After, Inv, Enabled;
    var s := After(Initial(), before);
    InitialInv();
    RunInv(Initial(), before);
    BeginReadInv(s, i);
    var u := Apply(s, BeginRead(i));
    RunInv(u, during);
    OwedIs(u, during, i, x);
    InvSafe(After(u, during), i);
  }

  // ---- reaching the head ----------------------------------------------------------------------------

  ghost function Ahead(h: History, pos: Pos): set<Id> {
    set x | x in h.live + h.dead.Keys && Place(h.rank, pos) < Src(h.rank, x)
  }

  lemma AdvanceShrinks(s: State, i: nat, r: Reader, n: Id)
    requires i in s.readers && r == s.readers[i] && !r.pos.Done? && At(r.pos) in s.next && n == s.next[At(r.pos)]
    requires Inv(s)
    ensures n == HEAD || Ahead(s.h, On(n)) < Ahead(s.h, r.pos)
  {
    hide PcOk, Back, Src, Settled, Ordered, Linked, Trail, Owed, Record;
    assert ReaderOk(s.h, r);
    Tracked(s, i);
    Forward(s.next, s.h, r);
    if n != HEAD { assert n in Ahead(s.h, r.pos); }
  }

  lemma Smaller(a: set<Id>, b: set<Id>)
    requires a < b
    ensures |a| < |b|
  {
    var x :| x in b && x !in a;
    assert a <= b - {x};
    SubsetSize(a, b - {x});
  }

  /** Left to run, a reader reaches the head in as many steps as there are entries ahead, and one. */
  lemma {:induction false} ReachesHead(s: State, i: nat) returns (run: seq<Action>)
    requires Inv(s) && i in s.readers
    ensures Possible(s, run) && |run| <= |Ahead(s.h, s.readers[i].pos)| + 1 && forall a :: a in run ==> a == Advance(i)
    ensures var t := After(s, run); t.h == s.h && i in t.readers && t.readers[i].pos.Done?
    decreases !s.readers[i].pos.Done?, |Ahead(s.h, s.readers[i].pos)|
  {
    hide Inv, Ahead;
    run := [];
    if !s.readers[i].pos.Done? {
      CanAdvance(s, i);
      AdvanceShrinks(s, i, s.readers[i], s.next[At(s.readers[i].pos)]);
      AdvanceInv(s, i);
      var t := Apply(s, Advance(i));
      if t.readers[i].pos.Done? {
        run := [Advance(i)];
        assert Possible(t, run[1..]);
      } else {
        Smaller(Ahead(s.h, t.readers[i].pos), Ahead(s.h, s.readers[i].pos));
        var rest := ReachesHead(t, i);
        run := [Advance(i)] + rest;
        assert run[1..] == rest;
      }
    }
  }

  ghost predicate Found(r: Reader, live: set<Id>) { r.pos.Done? && forall x :: x in r.visited <==> x in live }

  /** An undisturbed iteration finds exactly the entries of the list. */
  lemma IterationFindsList(s: State, i: nat, u: State) returns (run: seq<Action>)
    requires Inv(s) && Enabled(s, BeginRead(i)) && u == Apply(s, BeginRead(i))
    ensures Possible(u, run) && |run| <= |s.h.live + s.h.dead.Keys| + 1
    ensures i in After(u, run).readers && Found(After(u, run).readers[i], s.h.live)
  {
    hide Possible, After, Inv, Src, Place;
    BeginReadInv(s, i);
    run := ReachesHead(u, i);
    SubsetSize(Ahead(u.h, u.readers[i].pos), s.h.live + s.h.dead.Keys);
    var t := After(u, run);
    RunInv(u, run);
    InvSafe(t, i);
    forall x | x in s.h.live ensures x in t.readers[i].visited { OwedIs(u, run, i, x); }
    StartKept(u, run, i);
    forall x | x in t.readers[i].visited ensures x in s.h.live { NotDeadLater(t, x); }
  }

  lemma NotDeadLater(s: State, x: Id)
    requires Inv(s) && Seen(s.h, x, s.h.clock)
    ensures x in s.h.live
  {}

  lemma {:induction false} StartKept(s: State, run: seq<Action>, i: nat)
    requires Possible(s, run) && i in s.readers && EndRead(i) !in run
    ensures i in After(s, run).readers && After(s, run).readers[i].start == s.readers[i].start
    decreases |run|
  {
    if run == [] {
    } else {
      var t := Apply(s, run[0]);
      assert i in t.readers && t.readers[i].start == s.readers[i].start;
      StartKept(t, run[1..], i);
    }
  }

  // ---- where an entry goes --------------------------------------------------------------------------

  /** Once published, the entry stands between its neighbours in both directions, and no other link has changed. */
  lemma PublishedBetween(s: State, p: Id, n: Id, e: Id)
    requires Inv(s) && s.pc == Adding(p, n, e, 3)
    ensures var t := Apply(s, StoreAdd);
      && t.pc.Idle? && t.h.live == s.h.live + {e} && e !in s.h.live
      && p in t.next && t.next[p] == e && e in t.next && t.next[e] == n
      && n in t.prev && t.prev[n] == e && e in t.prev && t.prev[e] == p
      && t.prev == s.prev && forall x :: x in s.next && x != p ==> x in t.next && t.next[x] == s.next[x]
  {
    hide Ordered, Linked, Back, Trails, ReadersOk;
  }

  lemma PublishedRank(h: History, p: Id, n: Id, e: Id, y: Id)
    requires Fresh(h, p, n, e) && y in h.live
    ensures var rank := Insert(h, p, n, e).rank;
      && (Src(rank, y) < Src(rank, e) <==> Src(h.rank, y) <= Src(h.rank, p))
      && Src(rank, y) != Src(rank, e) && Src(rank, y) == Src(h.rank, y)
  {
    hide Src, Ordered;
    InsertRank(h, p, n, e);
    EntryRank(Insert(h, p, n, e), e);
  }

  lemma {:induction false} Then(s: State, a: seq<Action>, b: seq<Action>)
    requires Possible(s, a) && Possible(After(s, a), b)
    ensures Possible(s, a + b) && After(s, a + b) == After(After(s, a), b)
    decreases |a|
  {
    hide Enabled, Apply;
    if a == [] {
      assert a + b == b;
    } else {
      Then(Apply(s, a[0]), a[1..], b);
      assert (a + b)[1..] == a[1..] + b && (a + b)[0] == a[0];
    }
  }

  lemma Extend(s: State, run: seq<Action>, a: Action)
    requires Possible(s, run) && Enabled(After(s, run), a)
    ensures Possible(s, run + [a]) && After(s, run + [a]) == Apply(After(s, run), a)
  {
    assert [a][1..] == [];
    assert Possible(After(s, run), [a]) by { Nothing(Apply(After(s, run), a)); }
    hide Enabled, Apply;
    Then(s, run, [a]);
  }

  lemma Nothing(s: State)
    ensures Possible(s, []) && After(s, []) == s
  {}

  /** list_push_back_rcu: an insertion behind the head's predecessor puts the entry at the end, where its successor
      is the head, and behind every other entry. */
  lemma PushBackLast(s: State, e: Id)
    requires Inv(s) && HEAD in s.prev && Enabled(s, BeginAdd(s.prev[HEAD], e))
    ensures var run := [BeginAdd(s.prev[HEAD], e)] + [StoreAdd] + [StoreAdd] + [StoreAdd];
      Possible(s, run) && AddedLast(s, After(s, run), e)
  {
    hide Inv, Possible, After;
    var p := s.prev[HEAD];
    BeforeHead(s);
    var s1 := Apply(s, BeginAdd(p, e));
    var s2 := Apply(s1, StoreAdd);
    var s3 := Apply(s2, StoreAdd);
    assert s3.pc == Adding(p, HEAD, e, 3) && s3.h == s.h;
    BeginAddInv(s, p, e);
    StoreInv(s1);
    StoreInv(s2);
    assert StoreOne(s3).h == Insert(s.h, p, HEAD, e);
    LastRank(s3, p, e);
    PublishedBetween(s3, p, HEAD, e);
    hide Enabled, Apply;
    var run := [BeginAdd(p, e)];
    Nothing(s);
    Extend(s, [], BeginAdd(p, e));
    assert [] + run == run;
    Extend(s, run, StoreAdd);
    Extend(s, run + [StoreAdd], StoreAdd);
    Extend(s, run + [StoreAdd] + [StoreAdd], StoreAdd);
  }

  ghost predicate AddedLast(s: State, t: State, e: Id) {
    && t.pc.Idle? && t.readers == s.readers && t.h.dead == s.h.dead
    && t.h.live == s.h.live + {e} && HEAD in t.prev && t.prev[HEAD] == e && e in t.next && t.next[e] == HEAD
    && forall y :: y in s.h.live ==> Src(t.h.rank, y) < Src(t.h.rank, e) && Src(t.h.rank, y) == Src(s.h.rank, y)
  }

  lemma BeforeHead(s: State)
    requires Inv(s) && s.pc.Idle? && HEAD in s.prev
    ensures s.prev[HEAD] in s.next && s.next[s.prev[HEAD]] == HEAD
  {
    hide Ordered, Linked, Trails, ReadersOk, PcOk;
    assert Member(s.h, HEAD);
    assert BackAt(s.next, s.prev, s.h, HEAD);
  }

  lemma LastRank(s: State, p: Id, e: Id)
    requires Inv(s) && s.pc == Adding(p, HEAD, e, 3)
    ensures forall y :: y in s.h.live ==>
      var rank := Insert(s.h, p, HEAD, e).rank; Src(rank, y) < Src(rank, e) && Src(rank, y) == Src(s.h.rank, y)
  {
    hide Insert, Back, Trails, ReadersOk, Src;
    assert Hop(s.h, p, HEAD);
    var rank := Insert(s.h, p, HEAD, e).rank;
    forall y | y in s.h.live ensures Src(rank, y) < Src(rank, e) && Src(rank, y) == Src(s.h.rank, y) {
      PublishedRank(s.h, p, HEAD, e, y);
      BelowHead(s.h, y);
    }
  }

  lemma BelowHead(h: History, y: Id)
    requires Ordered(h) && y in h.live
    ensures Src(h.rank, y) < Dst(h.rank, HEAD)
  {}

  // ---- reclaiming -------------------------------------------------------------------------------------

  lemma {:induction false} AdvancesOnly(s: State, run: seq<Action>, i: nat)
    requires Possible(s, run) && i in s.readers && forall a :: a in run ==> a == Advance(i)
    ensures var t := After(s, run);
      && t.next == s.next && t.prev == s.prev && t.h == s.h && t.pc == s.pc
      && i in t.readers && t.readers - {i} == s.readers - {i}
    decreases |run|
  {
    if run == [] {
    } else {
      assert run[0] in run && run[0] == Advance(i);
      var t := Apply(s, Advance(i));
      assert t.readers - {i} == s.readers - {i};
      hide Enabled, Apply;
      assert forall a :: a in run[1..] ==> a in run;
      AdvancesOnly(t, run[1..], i);
    }
  }

  /** A reader goes on to the end and leaves, and nothing else changes. */
  lemma Leaves(s: State, i: nat) returns (run: seq<Action>)
    requires Inv(s) && i in s.readers
    ensures Possible(s, run) && After(s, run) == State(s.next, s.prev, s.h, s.pc, s.readers - {i})
    ensures forall a :: a in run ==> a == Advance(i) || a == EndRead(i)
  {
    hide Inv, Possible, After;
    run := ReachesHead(s, i);
    AdvancesOnly(s, run, i);
    Extend(s, run, EndRead(i));
    run := run + [EndRead(i)];
  }

  ghost predicate BySeer(s: State, d: Id, a: Action)
    requires d in s.h.dead
  {
    (a.Advance? || a.EndRead?) && a.reader in s.readers && s.readers[a.reader].start < s.h.dead[d]
  }

  /** The memory of a removed entry can be had back: the readers that may have seen the entry come to their end by
      themselves, and those that began later go on. */
  lemma {:induction false} Reclaimable(s: State, d: Id) returns (run: seq<Action>)
    requires Inv(s) && d in s.h.dead && s.pc != Removing(d)
    ensures Possible(s, run) && forall a :: a in run ==> BySeer(s, d, a)
    ensures var t := After(s, run);
      && (forall next, prev :: Enabled(t, Reclaim(d, next, prev)))
      && (forall i :: i in s.readers && s.readers[i].start >= s.h.dead[d] ==> i in t.readers && t.readers[i] == s.readers[i])
    decreases |s.readers|
  {
    hide Inv, Possible, After, Apply;
    if Watched(s.readers, s.h.dead[d]) {
      var i :| i in s.readers && s.readers[i].start < s.h.dead[d];
      var first := Leaves(s, i);
      var t := After(s, first);
      RunInv(s, first);
      assert (s.readers - {i}).Keys == s.readers.Keys - {i} && |s.readers.Keys| == |s.readers|;
      var rest := Reclaimable(t, d);
      Then(s, first, rest);
      run := first + rest;
    } else {
      run := [];
      Nothing(s);
    }
  }
}
