/** What happens when an RCU list entry is added again before its grace period is over, as include/sys/list.h allows. */
module RcuReuse {
  import opened RcuList

  /** list_add_rcu of a removed entry e behind p: the four stores, with no load in between. */
  ghost predicate CanReadd(s: State, p: Id, e: Id) {
    s.pc.Idle? && Member(s.h, p) && p in s.next && e in s.h.dead
  }

  ghost function Readd(s: State, p: Id, e: Id): State
    requires CanReadd(s, p, e)
  {
    var n := s.next[p];
    State(s.next[e := n][p := e], s.prev[n := e][e := p], Insert(Drop(s.h, e), p, n, e), Idle, s.readers)
  }

  /** Where e stands from now on. */
  ghost function NewPlace(s: State, p: Id): real
    requires p in s.next
  {
    (Src(s.h.rank, p) + Dst(s.h.rank, s.next[p])) / 2.0
  }

  // ---- a reader on the list, seen as a new reader ---------------------------------------------------------

  /** The state with that reader alone, begun just now, and owed what lies ahead of it. */
  ghost function Alone(t: State, i: nat, pos: Pos, first: seq<Id>, owed: set<Id>): State {
    State(t.next, t.prev, t.h, t.pc, map[i := Reader(pos, t.h.clock, owed, first)])
  }

  lemma ReaddFresh(s: State, p: Id, e: Id)
    requires Inv(s) && CanReadd(s, p, e)
    ensures var n := s.next[p];
      && Fresh(Drop(s.h, e), p, n, e) && Linked(s.next[e := n], Drop(s.h, e))
      && Back(s.next[e := n], s.prev[e := p], Drop(s.h, e))
      && n in s.prev && s.prev[n] == p && Member(s.h, n) && n != e && p != e
  {
    hide Trails, ReadersOk, Hop, Linked;
    var n := s.next[p];
    DropOrdered(s.h, e);
    DropLists(s.next, s.prev, s.h, e, n, p);
    assert Member(s.h, p) && BackAt(s.next, s.prev, s.h, p);
    LinkedHop(s.next, s.h, p);
    DropHop(s.h, e, p, n);
  }

  lemma LinkedHop(next: Links, h: History, x: Id)
    requires Linked(next, h) && Member(h, x)
    ensures x in next && Hop(h, x, next[x])
  {}

  lemma ReaddList(s: State, p: Id, e: Id)
    requires Inv(s) && CanReadd(s, p, e)
    ensures var t := Readd(s, p, e);
      Ordered(t.h) && Linked(t.next, t.h) && Back(t.next, t.prev, t.h)
  {
    hide Ordered, Linked, Back, Trails, ReadersOk, Hop, Insert, Drop;
    var n := s.next[p];
    ReaddFresh(s, p, e);
    var h, next, prev := Drop(s.h, e), s.next[e := n], s.prev[n := e][e := p];
    InsertOrdered(h, p, n, e);
    InsertLinked(next, h, p, n, e);
    assert prev[n := p] == s.prev[e := p];
    DropMembers(s.h, e);
    InsertBack(next, prev, h, p, n, e);
  }

  lemma DropMembers(h: History, e: Id)
    ensures forall x :: Member(Drop(h, e), x) <==> Member(h, x)
  {}

  /** A reader that begins now watches no removed entry, so the list alone is enough. */
  lemma AloneInv(t: State, i: nat, pos: Pos, first: seq<Id>, owed: set<Id>)
    requires Ordered(t.h) && Linked(t.next, t.h) && Back(t.next, t.prev, t.h) && t.pc.Idle?
    requires !pos.Done? && (pos.On? ==> pos.entry in t.h.live) && (first == [] || (pos.On? && first == [pos.entry]))
    requires owed <= t.h.live && forall y :: y in owed ==> Place(t.h.rank, pos) < Src(t.h.rank, y)
    ensures Inv(Alone(t, i, pos, first, owed))
  {
    hide Linked, Back;
    var u := Alone(t, i, pos, first, owed);
    forall d | d in u.h.dead ensures !Watched(u.readers, u.h.dead[d]) {}
    assert ReaderOk(u.h, u.readers[i]);
  }

  // ---- running both side by side ------------------------------------------------------------------------

  /** u follows s as far as reader i is concerned: same memory, same position, what was met since, and the part of what
      is owed that lies in aim. */
  ghost predicate Shadow(s: State, u: State, i: nat, first: seq<Id>, pre: seq<Id>, aim: set<Id>) {
    && u.next == s.next && u.prev == s.prev && u.h == s.h && u.pc == s.pc && u.readers.Keys == {i} && i in s.readers
    && var r, q := s.readers[i], u.readers[i];
    && q.pos == r.pos && r.start <= q.start && q.must == r.must * aim
    && first <= q.visited && r.visited == pre + q.visited[|first|..]
  }

  ghost predicate Elsewhere(a: Action, i: nat) { (a.BeginRead? || a.Advance? || a.EndRead?) && a.reader != i }

  lemma ShadowElsewhere(s: State, u: State, i: nat, first: seq<Id>, pre: seq<Id>, aim: set<Id>, a: Action)
    requires Shadow(s, u, i, first, pre, aim) && Enabled(s, a) && Elsewhere(a, i)
    ensures Shadow(Apply(s, a), u, i, first, pre, aim)
  {}

  lemma ShadowStep(s: State, u: State, i: nat, first: seq<Id>, pre: seq<Id>, aim: set<Id>, a: Action)
    requires Shadow(s, u, i, first, pre, aim) && Enabled(s, a) && !Elsewhere(a, i) && a != EndRead(i)
    ensures Enabled(u, a) && Shadow(Apply(s, a), Apply(u, a), i, first, pre, aim)
  {
    if a.Advance? {
      var q := u.readers[i];
      var n := s.next[At(q.pos)];
      if n != HEAD { assert (q.visited + [n])[|first|..] == q.visited[|first|..] + [n]; }
    }
  }

  /** Every run of the whole has its counterpart. */
  lemma {:induction false} ShadowRun(s: State, u: State, i: nat, first: seq<Id>, pre: seq<Id>, aim: set<Id>,
      run: seq<Action>)
    returns (other: seq<Action>)
    requires Shadow(s, u, i, first, pre, aim) && Possible(s, run) && EndRead(i) !in run
    ensures Possible(u, other) && Shadow(After(s, run), After(u, other), i, first, pre, aim)
    decreases |run|
  {
    hide Shadow, Enabled, Apply, Elsewhere;
    if run == [] {
      other := [];
    } else {
      var a := run[0];
      if Elsewhere(a, i) {
        ShadowElsewhere(s, u, i, first, pre, aim, a);
        other := ShadowRun(Apply(s, a), u, i, first, pre, aim, run[1..]);
      } else {
        ShadowStep(s, u, i, first, pre, aim, a);
        var rest := ShadowRun(Apply(s, a), Apply(u, a), i, first, pre, aim, run[1..]);
        other := [a] + rest;
        assert other[1..] == rest;
      }
    }
  }

  /** The reader's own steps are possible in the whole. */
  lemma {:induction false} ShadowLift(s: State, u: State, i: nat, first: seq<Id>, pre: seq<Id>, aim: set<Id>,
      run: seq<Action>)
    requires Shadow(s, u, i, first, pre, aim) && Possible(u, run) && forall a :: a in run ==> a == Advance(i)
    ensures Possible(s, run) && Shadow(After(s, run), After(u, run), i, first, pre, aim)
    decreases |run|
  {
    if run == [] {
    } else {
      var a := run[0];
      assert a in run;
      assert Enabled(s, a);
      ShadowStep(s, u, i, first, pre, aim, a);
      assert forall b :: b in run[1..] ==> b in run;
      hide Shadow, Enabled, Apply;
      ShadowLift(Apply(s, a), Apply(u, a), i, first, pre, aim, run[1..]);
    }
  }

  // ---- the exact condition ------------------------------------------------------------------------------

  /** If the iteration is over, it has met all it was owed. */
  ghost predicate MetAll(s: State, i: nat) {
    i in s.readers && s.readers[i].pos.Done? ==> forall x :: x in s.readers[i].must ==> x in s.readers[i].visited
  }

  ghost predicate NothingPrecedes(s: State, i: nat, p: Id)
    requires i in s.readers && p in s.next
  {
    forall y :: y in s.readers[i].must ==> y in s.readers[i].visited || NewPlace(s, p) < Src(s.h.rank, y)
  }

  ghost function StillAhead(s: State, i: nat, p: Id): set<Id>
    requires i in s.readers && p in s.next
  {
    set y | y in s.readers[i].must && NewPlace(s, p) < Src(s.h.rank, y)
  }

  lemma ReaddKeeps(s: State, p: Id, e: Id)
    requires CanReadd(s, p, e)
    ensures var t := Readd(s, p, e); t.readers == s.readers && t.h.dead == s.h.dead - {e} && s.next.Keys <= t.next.Keys
  {}

  lemma ReaddRanks(s: State, i: nat, p: Id, e: Id)
    requires Inv(s) && CanReadd(s, p, e) && i in s.readers
    ensures var h := Readd(s, p, e).h;
      && e in h.live && Src(h.rank, e) == NewPlace(s, p) && h.clock == s.h.clock
      && s.readers[i].start <= h.clock
      && forall y :: y in s.readers[i].must ==> y != e && y in h.live && Src(h.rank, y) == Src(s.h.rank, y)
  {
    hide Linked, Back, Trails;
    assert ReaderOk(s.h, s.readers[i]);
  }

  lemma Begins(s: State, i: nat, p: Id, e: Id)
    requires Inv(s) && CanReadd(s, p, e) && i in s.readers && s.readers[i].pos == On(e)
    ensures var t, aim := Readd(s, p, e), StillAhead(s, i, p); var u := Alone(t, i, On(e), [e], aim);
      && Inv(u) && Shadow(t, u, i, [e], s.readers[i].visited, aim) && e !in aim
      && (forall y :: y in s.readers[i].must ==> y != e && Src(t.h.rank, y) == Src(s.h.rank, y) && y in t.h.live)
      && Src(t.h.rank, e) == NewPlace(s, p) && e in t.h.live
  {
    hide Linked, Back, Trails, Ordered, Inv, Insert, Drop, Src;
    var t, aim := Readd(s, p, e), StillAhead(s, i, p);
    ReaddList(s, p, e);
    ReaddRanks(s, i, p, e);
    assert s.readers[i].visited == s.readers[i].visited + [e][1..];
    assert aim == s.readers[i].must * aim;
    AloneInv(t, i, On(e), [e], aim);
  }

  /** A reader that is seen as a new one, with all it has not met in view, meets it. */
  lemma Meets(t: State, u: State, i: nat, first: seq<Id>, pre: seq<Id>, aim: set<Id>, run: seq<Action>)
    requires Inv(u) && Shadow(t, u, i, first, pre, aim) && forall x :: x in aim ==> x !in first
    requires forall x :: x in t.readers[i].must ==> x in pre || x in aim
    requires Possible(t, run) && EndRead(i) !in run
    ensures MetAll(After(t, run), i)
  {
    hide Inv, Possible, After, Enabled, Apply;
    var other := ShadowRun(t, u, i, first, pre, aim, run);
    RunInv(u, other);
    var v, w := After(t, run), After(u, other);
    InvSafe(w, i);
    if v.readers[i].pos.Done? {
      forall x | x in v.readers[i].must ensures x in v.readers[i].visited {
        OwedIs(t, run, i, x);
        MetByBoth(v, w, i, first, pre, aim, x);
        if x !in pre {
          assert x in aim && x in w.readers[i].visited;
        }
      }
    }
  }

  /** What the shadow meets after its beginning the reader meets too. */
  lemma MetByBoth(v: State, w: State, i: nat, first: seq<Id>, pre: seq<Id>, aim: set<Id>, x: Id)
    requires Shadow(v, w, i, first, pre, aim)
    ensures x in v.readers[i].visited <==> x in pre || x in w.readers[i].visited[|first|..]
    ensures x in w.readers[i].visited && x !in first ==> x in w.readers[i].visited[|first|..]
  {
    var q := w.readers[i].visited;
    assert q == first + q[|first|..];
  }

  /** Left to run, the reader goes to the head from the entry's new place, past y. */
  lemma Misses(s: State, i: nat, p: Id, e: Id, t: State, y: Id) returns (run: seq<Action>)
    requires Inv(s) && CanReadd(s, p, e) && i in s.readers && s.readers[i].pos == On(e) && t == Readd(s, p, e)
    requires y in s.readers[i].must && y !in s.readers[i].visited && Src(s.h.rank, y) <= NewPlace(s, p)
    ensures Possible(t, run) && EndRead(i) !in run && !MetAll(After(t, run), i)
  {
    Begins(s, i, p, e);
    hide Inv, Possible, After, Enabled, Apply, Src, Readd, CanReadd, MetAll;
    var pre, aim := s.readers[i].visited, StillAhead(s, i, p);
    var u := Alone(t, i, On(e), [e], aim);
    run := ReachesHead(u, i);
    ShadowLift(t, u, i, [e], pre, aim, run);
    RunInv(u, run);
    var v, w := After(t, run), After(u, run);
    OwedIs(t, run, i, y);
    NotMet(v, w, i, e, pre, aim, y);
  }

  /** The shadow meets nothing from the entry back. */
  lemma NotMet(v: State, w: State, i: nat, e: Id, pre: seq<Id>, aim: set<Id>, y: Id)
    requires Shadow(v, w, i, [e], pre, aim) && Inv(w) && w.readers[i].pos.Done?
    requires y in v.readers[i].must && y !in pre && Src(w.h.rank, y) <= Src(w.h.rank, e)
    ensures !MetAll(v, i)
  {
    hide Inv, Src;
    MetByBoth(v, w, i, [e], pre, aim, y);
    InvSafe(w, i);
    assert w.readers[i].visited[0] == e;
    forall j | 0 < j < |w.readers[i].visited| ensures w.readers[i].visited[j] != y {
      assert Src(w.h.rank, w.readers[i].visited[0]) < Src(w.h.rank, w.readers[i].visited[j]);
    }
  }

  /** Reader i meets all it is owed in every continuation. */
  ghost predicate AlwaysMet(t: State, i: nat) {
    forall run :: Possible(t, run) && EndRead(i) !in run ==> MetAll(After(t, run), i)
  }

  lemma OnEntry(s: State, i: nat, p: Id, e: Id, t: State)
    requires Inv(s) && CanReadd(s, p, e) && i in s.readers && s.readers[i].pos == On(e) && t == Readd(s, p, e)
    ensures AlwaysMet(t, i) <==> NothingPrecedes(s, i, p)
  {
    hide Inv, Possible, After, MetAll, Readd, Src, NewPlace;
    if NothingPrecedes(s, i, p) {
      forall run | Possible(t, run) && EndRead(i) !in run ensures MetAll(After(t, run), i) {
        EntryMeets(s, i, p, e, t, run);
      }
    } else {
      var y :| y in s.readers[i].must && !(y in s.readers[i].visited || NewPlace(s, p) < Src(s.h.rank, y));
      var run := Misses(s, i, p, e, t, y);
      assert Possible(t, run) && EndRead(i) !in run && !MetAll(After(t, run), i);
    }
  }

  lemma EntryMeets(s: State, i: nat, p: Id, e: Id, t: State, run: seq<Action>)
    requires Inv(s) && CanReadd(s, p, e) && i in s.readers && s.readers[i].pos == On(e) && t == Readd(s, p, e)
    requires NothingPrecedes(s, i, p) && Possible(t, run) && EndRead(i) !in run
    ensures MetAll(After(t, run), i)
  {
    hide Inv, Possible, After, MetAll, Shadow, Alone, Src, NewPlace, Readd;
    Begins(s, i, p, e);
    ReaddKeeps(s, p, e);
    var pre, aim := s.readers[i].visited, StillAhead(s, i, p);
    assert forall y :: y in s.readers[i].must ==> y in pre || y in aim;
    Meets(t, Alone(t, i, On(e), [e], aim), i, [e], pre, aim, run);
  }

  // ---- readers elsewhere ------------------------------------------------------------------------------------

  /** A reader that has not begun to move or stands on an entry of the list is not disturbed. */
  lemma OnList(s: State, i: nat, p: Id, e: Id, t: State)
    requires Inv(s) && CanReadd(s, p, e) && i in s.readers && t == Readd(s, p, e)
    requires s.readers[i].pos.Before? || (s.readers[i].pos.On? && s.readers[i].pos.entry in s.h.live)
    ensures AlwaysMet(t, i)
  {
    hide Inv, Possible, After, MetAll, CanReadd, Shadow, Alone;
    var r := s.readers[i];
    var aim := set y | y in r.must && y !in r.visited;
    var u := Alone(t, i, r.pos, [], aim);
    ListShadow(s, i, p, e, t, aim);
    forall run | Possible(t, run) && EndRead(i) !in run ensures MetAll(After(t, run), i) {
      Meets(t, u, i, [], r.visited, aim, run);
    }
  }

  lemma ListShadow(s: State, i: nat, p: Id, e: Id, t: State, aim: set<Id>)
    requires Inv(s) && CanReadd(s, p, e) && i in s.readers && t == Readd(s, p, e)
    requires s.readers[i].pos.Before? || (s.readers[i].pos.On? && s.readers[i].pos.entry in s.h.live)
    requires aim == set y | y in s.readers[i].must && y !in s.readers[i].visited
    ensures var r := s.readers[i]; var u := Alone(t, i, r.pos, [], aim); Inv(u) && Shadow(t, u, i, [], r.visited, aim)
  {
    hide Inv, Linked, Back, Ordered, Insert, Drop, Src;
    ListPlaces(s, i, p, e);
    ReaddList(s, p, e);
    AloneInv(t, i, s.readers[i].pos, [], aim);
    assert aim == s.readers[i].must * aim;
  }

  lemma ListPlaces(s: State, i: nat, p: Id, e: Id)
    requires Inv(s) && CanReadd(s, p, e) && i in s.readers
    requires s.readers[i].pos.Before? || (s.readers[i].pos.On? && s.readers[i].pos.entry in s.h.live)
    ensures var h, r := Readd(s, p, e).h, s.readers[i];
      && r.start <= h.clock && (r.pos.On? ==> r.pos.entry in h.live) && r.must <= h.live
      && forall y :: y in r.must && y !in r.visited ==> Place(h.rank, r.pos) < Src(h.rank, y)
  {
    hide Linked, Back, Trails;
    assert ReaderOk(s.h, s.readers[i]);
  }

  lemma {:induction false} StaysDone(t: State, i: nat, run: seq<Action>)
    requires i in t.readers && t.readers[i].pos.Done? && MetAll(t, i) && Possible(t, run) && EndRead(i) !in run
    ensures MetAll(After(t, run), i)
    decreases |run|
  {
    if run == [] {
    } else {
      var u := Apply(t, run[0]);
      assert i in u.readers && u.readers[i].pos.Done? && MetAll(u, i);
      hide Apply, Enabled, MetAll;
      StaysDone(u, i, run[1..]);
    }
  }

  lemma WhenDone(s: State, i: nat, p: Id, e: Id, t: State)
    requires Inv(s) && CanReadd(s, p, e) && i in s.readers && s.readers[i].pos.Done? && t == Readd(s, p, e)
    ensures AlwaysMet(t, i)
  {
    hide Possible, After;
    assert MetAll(t, i) by { InvSafe(s, i); }
    forall run | Possible(t, run) && EndRead(i) !in run ensures MetAll(After(t, run), i) { StaysDone(t, i, run); }
  }

  // ---- readers on other removed entries ---------------------------------------------------------------------

  /** The state without its readers: the list and its writer. */
  ghost function Bare(t: State): State { State(t.next, t.prev, t.h, t.pc, map[]) }

  /** Reader i stands on a removed entry that it keeps from being reclaimed. */
  ghost predicate Pinned(t: State, i: nat, d: Id) {
    && Inv(Bare(t)) && i in t.readers && t.readers[i].pos == On(d)
    && d in t.h.dead && t.readers[i].start < t.h.dead[d] && d in t.next
  }

  ghost predicate OfReader(a: Action) { a.BeginRead? || a.Advance? || a.EndRead? }

  lemma BareStep(t: State, a: Action)
    requires Enabled(t, a) && !OfReader(a)
    ensures Enabled(Bare(t), a) && Bare(Apply(t, a)) == Apply(Bare(t), a)
  {
    assert forall x :: ForgetAll(map[], x) == map[];
  }

  lemma BareSame(t: State, a: Action)
    requires Enabled(t, a) && OfReader(a)
    ensures Bare(Apply(t, a)) == Bare(t)
  {}

  /** The link of a removed entry that is watched does not change. */
  lemma LinkKept(t: State, i: nat, d: Id, a: Action)
    requires Pinned(t, i, d) && Enabled(t, a)
    ensures var u := Apply(t, a); d in u.next && u.next[d] == t.next[d] && d in u.h.dead && u.h.dead[d] == t.h.dead[d]
  {
    hide Hop, Trails, ReadersOk;
    var b := Bare(t);
    assert Ordered(b.h) && PcOk(b.next, b.prev, b.h, b.pc);
    match a
    case Unlink(x) => assert Member(b.h, x) && BackAt(b.next, b.prev, b.h, x);
    case Reclaim(x, _, _) => assert Watched(t.readers, t.h.dead[d]);
    case _ =>
  }

  lemma StillPinned(t: State, i: nat, d: Id, a: Action)
    requires Pinned(t, i, d) && Enabled(t, a) && a != Advance(i) && a != EndRead(i)
    ensures Pinned(Apply(t, a), i, d)
  {
    hide Inv;
    LinkKept(t, i, d, a);
    if OfReader(a) { BareSame(t, a); } else { BareStep(t, a); StepInv(Bare(t), a); }
  }

  /** The reader's next step may as well come first. */
  lemma Swap(t: State, i: nat, d: Id, a: Action)
    requires Pinned(t, i, d) && Enabled(t, a) && a != Advance(i) && a != EndRead(i)
    ensures Enabled(t, Advance(i)) && Enabled(Apply(t, Advance(i)), a) && Enabled(Apply(t, a), Advance(i))
    ensures Apply(Apply(t, a), Advance(i)) == Apply(Apply(t, Advance(i)), a)
  {
    hide Inv;
    LinkKept(t, i, d, a);
    var u, v := Apply(t, a), Apply(t, Advance(i));
    WatchSame(t, i, v);
    assert Apply(u, Advance(i)).readers == Apply(v, a).readers;
  }

  lemma WatchSame(t: State, i: nat, v: State)
    requires Enabled(t, Advance(i)) && v == Apply(t, Advance(i))
    ensures forall c: nat :: Watched(v.readers, c) <==> Watched(t.readers, c)
  {
    forall c: nat ensures Watched(v.readers, c) <==> Watched(t.readers, c) {
      if Watched(v.readers, c) {
        var j :| j in v.readers && v.readers[j].start < c; assert j in t.readers && t.readers[j].start < c;
      }
      if Watched(t.readers, c) {
        var j :| j in t.readers && t.readers[j].start < c; assert j in v.readers && v.readers[j].start < c;
      }
    }
  }

  /** In any run the reader stays put, or its first step can be taken at once. */
  lemma {:induction false} StepFirst(t: State, i: nat, d: Id, run: seq<Action>) returns (moved: bool, other: seq<Action>)
    requires Pinned(t, i, d) && Possible(t, run) && EndRead(i) !in run
    ensures Enabled(t, Advance(i))
    ensures !moved ==> i in After(t, run).readers && After(t, run).readers[i].pos == On(d)
    ensures moved ==> Possible(Apply(t, Advance(i)), other) && EndRead(i) !in other
    ensures moved ==> After(Apply(t, Advance(i)), other) == After(t, run)
    decreases |run|
  {
    assert Enabled(t, Advance(i));
    hide Apply, Enabled, Inv;
    if run == [] {
      moved, other := false, [];
    } else if run[0] == Advance(i) {
      moved, other := true, run[1..];
    } else {
      var a := run[0];
      StillPinned(t, i, d, a);
      Swap(t, i, d, a);
      var rest;
      moved, rest := StepFirst(Apply(t, a), i, d, run[1..]);
      other := [a] + rest;
      assert other[1..] == rest;
    }
  }

  /** So what holds of all continuations may be judged after the step. */
  lemma AfterStep(t: State, i: nat, d: Id, u: State)
    requires Pinned(t, i, d) && Enabled(t, Advance(i)) && u == Apply(t, Advance(i))
    ensures AlwaysMet(t, i) <==> AlwaysMet(u, i)
  {
    hide Possible, After, Apply, Enabled, Inv;
    if AlwaysMet(t, i) {
      forall run | Possible(u, run) && EndRead(i) !in run ensures MetAll(After(u, run), i) { First(t, i, u, run); }
    }
    if AlwaysMet(u, i) {
      forall run | Possible(t, run) && EndRead(i) !in run ensures MetAll(After(t, run), i) {
        var moved, other := StepFirst(t, i, d, run);
      }
    }
  }

  lemma First(t: State, i: nat, u: State, run: seq<Action>)
    requires Enabled(t, Advance(i)) && u == Apply(t, Advance(i)) && Possible(u, run) && EndRead(i) !in run
    requires AlwaysMet(t, i)
    ensures MetAll(After(u, run), i)
  {
    hide Apply, Enabled, MetAll;
    var all := [Advance(i)] + run;
    assert all[1..] == run && Possible(t, all) && EndRead(i) !in all;
  }

  /** From x the links of removed entries lead to e in at most k steps. */
  ghost predicate LeadsIn(s: State, x: Id, e: Id, k: nat)
    decreases k
  {
    x == e || (k > 0 && x in s.h.dead && x in s.next && LeadsIn(s, s.next[x], e, k - 1))
  }

  /** Reader i stands on e, or on removed entries that lead to it. */
  ghost predicate Leads(s: State, i: nat, e: Id)
    requires i in s.readers
  {
    !s.readers[i].pos.Done? && exists k: nat :: LeadsIn(s, At(s.readers[i].pos), e, k)
  }

  lemma LeadsOn(s: State, u: State, i: nat, e: Id, d: Id)
    requires i in s.readers && s.readers[i].pos == On(d) && d in s.h.dead && d != e && d in s.next && HEAD != e
    requires HEAD !in s.h.dead && u == State(s.next, s.prev, s.h, s.pc, s.readers[i := Move(s.readers[i], s.next[d])])
    ensures Leads(s, i, e) <==> Leads(u, i, e)
  {
    var n, r := s.next[d], u.readers[i];
    assert !r.pos.Done? ==> At(r.pos) == n;
    if Leads(s, i, e) {
      var k: nat :| LeadsIn(s, At(s.readers[i].pos), e, k);
      LeadsAlike(s, u, n, e, k - 1);
    }
    if Leads(u, i, e) {
      var k: nat :| LeadsIn(u, At(r.pos), e, k);
      LeadsAlike(s, u, n, e, k);
      assert LeadsIn(s, At(s.readers[i].pos), e, k + 1);
    }
  }

  lemma {:induction false} LeadsAlike(s: State, u: State, x: Id, e: Id, k: nat)
    requires u.next == s.next && u.h == s.h
    ensures LeadsIn(s, x, e, k) <==> LeadsIn(u, x, e, k)
    decreases k
  {
    if x == e || k == 0 || x !in s.h.dead || x !in s.next {
    } else {
      LeadsAlike(s, u, s.next[x], e, k - 1);
    }
  }

  /** The entry led to next is not owed. */
  lemma PrecedesAlike(s: State, u: State, i: nat, p: Id, e: Id, d: Id)
    requires Inv(s) && CanReadd(s, p, e) && i in s.readers && s.readers[i].pos == On(d) && d in s.next
    requires u == State(s.next, s.prev, s.h, s.pc, s.readers[i := Move(s.readers[i], s.next[d])]) && Leads(u, i, e)
    ensures NothingPrecedes(s, i, p) <==> NothingPrecedes(u, i, p)
  {
    hide Linked, Back, Trails, PcOk;
    var n := s.next[d];
    var k: nat :| LeadsIn(u, n, e, k);
    assert n in s.h.dead && ReaderOk(s.h, s.readers[i]);
    assert n !in s.readers[i].must;
  }

  lemma AddedBare(s: State, p: Id, e: Id)
    requires Inv(s) && CanReadd(s, p, e)
    ensures Inv(Bare(Readd(s, p, e)))
  {
    hide Ordered, Linked, Back, Insert, Drop;
    ReaddList(s, p, e);
    var b := Bare(Readd(s, p, e));
    assert forall c: nat :: !Watched(b.readers, c);
  }

  /** A reader on another removed entry goes forward in time. */
  lemma OnOther(s: State, i: nat, e: Id, d: Id)
    requires Inv(s) && e in s.h.dead && i in s.readers && s.readers[i].pos == On(d) && d !in s.h.live
    ensures d in s.h.dead && d in s.next && s.readers[i].start < s.h.dead[d] <= s.h.clock && HEAD != e && HEAD !in s.h.dead
    ensures s.next[d] in s.h.dead ==> s.h.dead[d] < s.h.dead[s.next[d]] <= s.h.clock
  {
    hide Linked, Back, PcOk, Hop;
    assert ReaderOk(s.h, s.readers[i]) && Ordered(s.h);
    Tracked(s, i);
    assert Trail(s.next, s.h, d);
  }

  lemma OtherPinned(s: State, i: nat, p: Id, e: Id, t: State, d: Id)
    requires Inv(s) && CanReadd(s, p, e) && i in s.readers && t == Readd(s, p, e)
    requires s.readers[i].pos == On(d) && d in s.h.dead && d in s.next && s.readers[i].start < s.h.dead[d] && d != e
    ensures Pinned(t, i, d)
  {
    hide Inv, Readd;
    AddedBare(s, p, e);
    ReaddKeeps(s, p, e);
  }

  /** Its step and the adding commute. */
  lemma OtherStep(s: State, i: nat, p: Id, e: Id, t: State, d: Id, u: State)
    requires CanReadd(s, p, e) && i in s.readers && t == Readd(s, p, e) && d in s.next && d != e && d != p
    requires s.readers[i].pos == On(d)
    requires u == State(s.next, s.prev, s.h, s.pc, s.readers[i := Move(s.readers[i], s.next[d])])
    ensures Enabled(s, Advance(i)) && Apply(s, Advance(i)) == u
    ensures Enabled(t, Advance(i)) && CanReadd(u, p, e) && Readd(u, p, e) == Apply(t, Advance(i))
  {}

  ghost function StillToGo(s: State, i: nat): nat
    requires i in s.readers
  {
    var pos := s.readers[i].pos;
    if pos.On? && pos.entry in s.h.dead && s.h.dead[pos.entry] <= s.h.clock then s.h.clock + 1 - s.h.dead[pos.entry] else 0
  }

  /** A removed entry is added again. Each reader meets all it is owed in every continuation, if and only if it does
      not stand on that entry or on removed entries that lead to it, or no entry it is owed and has not met precedes
      the new place. */
  lemma {:induction false} ReaddExact(s: State, i: nat, p: Id, e: Id, t: State)
    requires Inv(s) && CanReadd(s, p, e) && i in s.readers && t == Readd(s, p, e)
    ensures AlwaysMet(t, i) <==> !Leads(s, i, e) || NothingPrecedes(s, i, p)
    decreases StillToGo(s, i)
  {
    hide Inv, AlwaysMet, CanReadd, Readd, NothingPrecedes, Pinned;
    var pos := s.readers[i].pos;
    if pos.Done? {
      WhenDone(s, i, p, e, t);
    } else if pos.Before? || pos.entry in s.h.live {
      OnList(s, i, p, e, t);
      NoLead(s, i, e, p);
    } else if pos.entry == e {
      OnEntry(s, i, p, e, t);
      assert LeadsIn(s, At(pos), e, 0);
    } else {
      var d := pos.entry;
      Enough(s, p, e);
      OnOther(s, i, e, d);
      OtherPinned(s, i, p, e, t, d);
      var u := State(s.next, s.prev, s.h, s.pc, s.readers[i := Move(s.readers[i], s.next[d])]);
      OtherStep(s, i, p, e, t, d, u);
      StepInv(s, Advance(i));
      AfterStep(t, i, d, Apply(t, Advance(i)));
      LeadsOn(s, u, i, e, d);
      if Leads(u, i, e) { PrecedesAlike(s, u, i, p, e, d); }
      ReaddExact(u, i, p, e, Apply(t, Advance(i)));
    }
  }

  lemma Enough(s: State, p: Id, e: Id)
    requires CanReadd(s, p, e) && Inv(s)
    ensures e in s.h.dead && p !in s.h.dead
  {
    hide Linked, Back, Trails, ReadersOk, PcOk;
    assert Ordered(s.h);
  }

  lemma NoLead(s: State, i: nat, e: Id, p: Id)
    requires Inv(s) && CanReadd(s, p, e) && i in s.readers
    requires s.readers[i].pos.Before? || (s.readers[i].pos.On? && s.readers[i].pos.entry in s.h.live)
    ensures !Leads(s, i, e)
  {
    hide Linked, Back, Trails, ReadersOk, PcOk;
    assert Ordered(s.h);
  }

  // ---- the failing case, from the start -----------------------------------------------------------------

  lemma AddTwo() returns (run: seq<Action>)
    ensures Possible(Initial(), run)
    ensures var s := After(Initial(), run); Two(s) && s.pc.Idle? && s.readers == map[]
  {
    hide Possible, After, Inv, Enabled, Apply;
    var s0 := Initial();
    InitialInv();
    CanPushBack(s0, 1);
    PushBackLast(s0, 1);
    run := [BeginAdd(s0.prev[HEAD], 1)] + [StoreAdd] + [StoreAdd] + [StoreAdd];
    RunInv(s0, run);
    var s1 := After(s0, run);
    CanPushBack(s1, 2);
    PushBackLast(s1, 2);
    var more := [BeginAdd(s1.prev[HEAD], 2)] + [StoreAdd] + [StoreAdd] + [StoreAdd];
    Then(s0, run, more);
    run := run + more;
    RunInv(s0, run);
  }

  /** The list holds entry 1 before entry 2. */
  ghost predicate Two(s: State) {
    Inv(s) && s.h.live == {1, 2} && s.h.dead == map[] && Src(s.h.rank, 1) < Src(s.h.rank, 2)
  }

  lemma CanPushBack(s: State, e: Id)
    requires Inv(s) && s.pc.Idle? && !Member(s.h, e) && e !in s.h.dead
    ensures HEAD in s.prev && Enabled(s, BeginAdd(s.prev[HEAD], e))
  {
    hide Ordered, Linked, Trails, ReadersOk;
    assert Member(s.h, HEAD);
    assert BackAt(s.next, s.prev, s.h, HEAD);
  }

  lemma FirstIsOne(s: State)
    requires Two(s) && s.pc.Idle?
    ensures HEAD in s.next && s.next[HEAD] == 1 && 1 in s.prev && 1 in s.next
  {
    hide Trails, ReadersOk, PcOk, Hop, Ordered, Linked, Src;
    LinkedHop(s.next, s.h, HEAD);
    LowestFirst(s.h, s.next[HEAD]);
    assert Member(s.h, 1) && BackAt(s.next, s.prev, s.h, 1);
  }

  lemma LowestFirst(h: History, n: Id)
    requires Ordered(h) && Hop(h, HEAD, n) && h.live == {1, 2} && Src(h.rank, 1) < Src(h.rank, 2)
    ensures n == 1
  {
    assert 1 in h.live && 2 in h.live && 0.0 < h.rank[1] && h.rank[2] < 1.0;
  }

  /** Reader 0 stands on entry 1, which has been removed, and is owed entry 2. */
  ghost predicate Standing(s: State) {
    && Inv(s) && CanReadd(s, 2, 1) && 0 in s.readers && s.readers[0].pos == On(1)
    && s.readers[0].must == {2} && s.readers[0].visited == [1]
  }

  lemma Stands(s: State) returns (run: seq<Action>)
    requires Two(s) && s.pc.Idle? && s.readers == map[]
    ensures Possible(s, run) && Standing(After(s, run))
  {
    hide Possible, After, Inv;
    run := [];
    Nothing(s);
    Extend(s, run, BeginRead(0));
    run := run + [BeginRead(0)];
    FirstIsOne(s);
    Extend(s, run, Advance(0));
    run := run + [Advance(0)];
    Extend(s, run, Unlink(1));
    run := run + [Unlink(1)];
    Extend(s, run, Relink);
    run := run + [Relink];
    RunInv(s, run);
    MemberNext(After(s, run), 2);
  }

  lemma MemberNext(s: State, x: Id)
    requires Inv(s) && Member(s.h, x)
    ensures x in s.next && Src(s.h.rank, x) < NewPlace(s, x)
  {
    hide Ordered, Back, Trails, ReadersOk, PcOk;
    assert Hop(s.h, x, s.next[x]);
  }

  /** With the list 1, 2 and a reader on 1: removing 1 and adding it again at the end before the reader moves on
      sends the reader to the head past 2, which never left the list. */
  lemma ReuseSkipsEntry() returns (before: seq<Action>, during: seq<Action>)
    ensures Possible(Initial(), before) && CanReadd(After(Initial(), before), 2, 1)
    ensures var t := Readd(After(Initial(), before), 2, 1);
      Possible(t, during) && EndRead(0) !in during && !MetAll(After(t, during), 0)
  {
    hide Possible, After, Inv, CanReadd, Readd, MetAll, Two, NewPlace;
    var s0 := Initial();
    before := AddTwo();
    var more := Stands(After(s0, before));
    Then(s0, before, more);
    before := before + more;
    var s := After(s0, before);
    TwoIsBehind(s);
    during := Misses(s, 0, 2, 1, Readd(s, 2, 1), 2);
  }

  lemma TwoIsBehind(s: State)
    requires Standing(s)
    ensures 2 in s.next && Src(s.h.rank, 2) <= NewPlace(s, 2)
  {
    hide Inv;
    MemberNext(s, 2);
  }
}
