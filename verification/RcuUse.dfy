/** The list and the grace periods together: entries removed from an RCU list are given back by callbacks passed to
    rcu_call, while CPUs iterate inside their read sections. */
module RcuUse {
  import G = RcuGrace
  import L = RcuList

  /** frees: the entry each callback gives back, until the memory is used again; ran: those that have done so. The
      reader on CPU i is reader i of the list. */
  datatype Both = Both(rcu: G.Rcu, list: L.State, frees: map<G.Callback, L.Id>, ran: set<G.Callback>)

  datatype Step =
    | Grace(a: G.Action)                                       // leaving a read section ends the iteration in it
    | List(b: L.Action)
    | Defer(cpu: G.Cpu, callback: G.Callback, entry: L.Id)     // rcu_call for a removed entry
    | Reuse(callback: G.Callback, next: L.Id, prev: L.Id)      // the memory given back is used for something else

  ghost predicate Can(s: Both, x: Step) {
    match x
    case Grace(a) => G.Enabled(s.rcu, a)
    case List(b) => L.Enabled(s.list, b) && !b.Reclaim? && (b.BeginRead? ==> b.reader in s.rcu.reading)
    case Defer(c, f, d) =>
      && G.Enabled(s.rcu, G.Call(c, f)) && d in s.list.h.dead && s.list.pc != L.Removing(d)
      && forall g :: g in s.frees ==> s.frees[g] != d
    case Reuse(f, n, p) => f in s.ran && f in s.frees && L.Enabled(s.list, L.Reclaim(s.frees[f], n, p))
  }

  ghost function Without(s: L.State, i: nat): L.State { L.State(s.next, s.prev, s.h, s.pc, s.readers - {i}) }

  /** The callbacks an action runs. */
  ghost function Runs(s: G.Rcu, a: G.Action): set<G.Callback> {
    if (a.Invoke? || a.InvokeAgain?) && a.cpu in s.local then set f | f in s.local[a.cpu].ready else {}
  }

  ghost function Do(s: Both, x: Step): Both
    requires Can(s, x)
  {
    match x
    case Grace(a) =>
      Both(G.Apply(s.rcu, a), if a.EndRead? then Without(s.list, a.cpu) else s.list, s.frees,
           s.ran + (set f | f in Runs(s.rcu, a) && f in s.frees))
    case List(b) => Both(s.rcu, L.Apply(s.list, b), s.frees, s.ran)
    case Defer(c, f, d) => Both(G.Apply(s.rcu, G.Call(c, f)), s.list, s.frees[f := d], s.ran)
    case Reuse(f, n, p) => Both(s.rcu, L.Apply(s.list, L.Reclaim(s.frees[f], n, p)), s.frees - {f}, s.ran - {f})
  }

  /** Reader i began before entry d was removed, and may stand on it. */
  ghost predicate Watches(s: L.State, i: nat, d: L.Id) {
    i in s.readers && d in s.h.dead && s.readers[i].start < s.h.dead[d]
  }

  /** Reader i stands on memory that callback f has given back. */
  ghost predicate Dangling(s: Both, i: nat, f: G.Callback) {
    f in s.ran && f in s.frees && i in s.list.readers && s.list.readers[i].pos == L.On(s.frees[f])
  }

  ghost predicate PendingOk(s: Both, f: G.Callback)
    requires f in s.frees
  {
    && f in s.rcu.owed && s.frees[f] in s.list.h.dead && s.list.pc != L.Removing(s.frees[f])
    && (forall i :: Watches(s.list, i, s.frees[f]) ==>
          if f in s.ran then f in s.rcu.rushed else i in s.rcu.owed[f])
  }

  ghost predicate Inv(s: Both) {
    && G.Inv(s.rcu) && L.Inv(s.list)
    && (forall i :: i in s.list.readers ==> i in s.rcu.reading)
    && s.ran <= s.frees.Keys && (forall f :: f in s.frees ==> PendingOk(s, f))
    && (forall f, g :: f in s.frees && g in s.frees && s.frees[f] == s.frees[g] ==> f == g)
  }

  // ---- steps --------------------------------------------------------------------------------------------

  lemma WithoutInv(s: L.State, i: nat)
    requires L.Inv(s)
    ensures L.Inv(Without(s, i))
  {
    hide L.Ordered, L.Linked, L.Back, L.PcOk, L.ReaderOk, L.Trail;
    var readers := s.readers - {i};
    forall t: nat | L.Watched(readers, t) ensures L.Watched(s.readers, t) {
      var j :| j in readers && readers[j].start < t;
      assert j in s.readers;
    }
  }

  ghost function Reading(s: G.Rcu, a: G.Action): set<G.Cpu> {
    if a.EndRead? then s.reading - {a.cpu} else if a.BeginRead? then s.reading + {a.cpu} else s.reading
  }

  /** What a grace action leaves alone, and when the callbacks it runs are owed nothing. */
  lemma GraceKeeps(s: G.Rcu, a: G.Action, f: G.Callback)
    requires G.Inv(s) && G.Enabled(s, a) && f in s.owed
    ensures var t := G.Apply(s, a);
      && f in t.owed && t.owed[f] == (if a.EndRead? then s.owed[f] - {a.cpu} else s.owed[f])
      && t.reading == Reading(s, a)
      && s.rushed <= t.rushed
    ensures f in Runs(s, a) ==> f in s.rushed || s.owed[f] == {}
  {
    hide G.Late, G.Unique;
    if f in Runs(s, a) { assert G.LocalOk(s, s.local[a.cpu]); }
  }

  lemma GraceReading(s: G.Rcu, a: G.Action)
    requires G.Enabled(s, a)
    ensures G.Apply(s, a).reading == Reading(s, a)
  {
    hide G.Late;
  }

  lemma GraceInv(s: Both, a: G.Action)
    requires Inv(s) && Can(s, Grace(a))
    ensures Inv(Do(s, Grace(a)))
  {
    hide G.Inv, L.Inv, G.Apply, G.Enabled, Runs;
    var t := Do(s, Grace(a));
    G.StepInv(s.rcu, a);
    GraceReading(s.rcu, a);
    if a.EndRead? { WithoutInv(s.list, a.cpu); }
    forall f | f in t.frees ensures PendingOk(t, f) {
      assert PendingOk(s, f);
      GraceKeeps(s.rcu, a, f);
      forall i | Watches(t.list, i, t.frees[f]) ensures if f in t.ran then f in t.rcu.rushed else i in t.rcu.owed[f] {
        assert Watches(s.list, i, s.frees[f]);
      }
    }
  }

  /** What a list action leaves alone: removed entries stay removed, and readers that begin later do not watch them. */
  lemma ListKeeps(s: L.State, b: L.Action, d: L.Id, i: nat)
    requires L.Inv(s) && L.Enabled(s, b) && d in s.h.dead && s.pc != L.Removing(d) && (b.Reclaim? ==> b.entry != d)
    ensures var t := L.Apply(s, b);
      && d in t.h.dead && t.pc != L.Removing(d)
      && (Watches(t, i, d) ==> Watches(s, i, d))
  {
    hide L.Linked, L.Back, L.Trails, L.ReadersOk;
    assert L.Ordered(s.h);
  }

  lemma ListReaders(s: L.State, b: L.Action, i: nat)
    requires L.Enabled(s, b) && i in L.Apply(s, b).readers
    ensures i in s.readers || b == L.BeginRead(i)
  {}

  lemma ListInv(s: Both, b: L.Action)
    requires Inv(s) && Can(s, List(b))
    ensures Inv(Do(s, List(b)))
  {
    hide G.Inv, L.Inv, L.Apply, L.Enabled, Watches;
    var t := Do(s, List(b));
    L.StepInv(s.list, b);
    forall i | i in t.list.readers ensures i in t.rcu.reading { ListReaders(s.list, b, i); }
    forall f | f in t.frees ensures PendingOk(t, f) {
      assert PendingOk(s, f);
      ListKeeps(s.list, b, s.frees[f], 0);
      forall i | Watches(t.list, i, t.frees[f]) ensures if f in t.ran then f in t.rcu.rushed else i in t.rcu.owed[f] {
        ListKeeps(s.list, b, s.frees[f], i);
      }
    }
  }

  lemma CallKeeps(s: G.Rcu, c: G.Cpu, f: G.Callback)
    requires G.Enabled(s, G.Call(c, f))
    ensures var t := G.Apply(s, G.Call(c, f));
      t.owed == s.owed[f := s.reading] && t.reading == s.reading && t.rushed == s.rushed
    ensures f !in s.owed
  {}

  lemma DeferInv(s: Both, c: G.Cpu, f: G.Callback, d: L.Id)
    requires Inv(s) && Can(s, Defer(c, f, d))
    ensures Inv(Do(s, Defer(c, f, d)))
  {
    hide G.Inv, L.Inv, G.Apply, G.Enabled;
    var t := Do(s, Defer(c, f, d));
    G.StepInv(s.rcu, G.Call(c, f));
    CallKeeps(s.rcu, c, f);
    assert f in s.frees ==> PendingOk(s, f);
    forall g | g in t.frees ensures PendingOk(t, g) {
      if g != f { assert PendingOk(s, g); }
    }
  }

  lemma ReuseInv(s: Both, f: G.Callback, n: L.Id, p: L.Id)
    requires Inv(s) && Can(s, Reuse(f, n, p))
    ensures Inv(Do(s, Reuse(f, n, p)))
  {
    hide G.Inv, L.Inv, L.Apply, L.Enabled, Watches;
    var t, b := Do(s, Reuse(f, n, p)), L.Reclaim(s.frees[f], n, p);
    L.StepInv(s.list, b);
    forall i | i in t.list.readers ensures i in t.rcu.reading { ListReaders(s.list, b, i); }
    forall g | g in t.frees ensures PendingOk(t, g) {
      assert PendingOk(s, g) && s.frees[g] != s.frees[f];
      ListKeeps(s.list, b, s.frees[g], 0);
      forall i | Watches(t.list, i, t.frees[g]) ensures if g in t.ran then g in t.rcu.rushed else i in t.rcu.owed[g] {
        ListKeeps(s.list, b, s.frees[g], i);
      }
    }
  }

  lemma StepInv(s: Both, x: Step)
    requires Inv(s) && Can(s, x)
    ensures Inv(Do(s, x))
  {
    hide Inv, Can, Do;
    match x
    case Grace(a) => GraceInv(s, a);
    case List(b) => ListInv(s, b);
    case Defer(c, f, d) => DeferInv(s, c, f, d);
    case Reuse(f, n, p) => ReuseInv(s, f, n, p);
  }

  // ---- whole runs -----------------------------------------------------------------------------------------

  ghost predicate CanAll(s: Both, run: seq<Step>)
    decreases |run|
  {
    run == [] || (Can(s, run[0]) && CanAll(Do(s, run[0]), run[1..]))
  }

  ghost function Done(s: Both, run: seq<Step>): Both
    requires CanAll(s, run)
    decreases |run|
  {
    if run == [] then s else Done(Do(s, run[0]), run[1..])
  }

  lemma {:induction false} RunInv(s: Both, run: seq<Step>)
    requires Inv(s) && CanAll(s, run)
    ensures Inv(Done(s, run))
    decreases |run|
  {
    hide Inv, Can, Do;
    if run == [] {
    } else {
      StepInv(s, run[0]);
      RunInv(Do(s, run[0]), run[1..]);
    }
  }

  ghost function Start(cpus: set<G.Cpu>): Both { Both(G.Initial(cpus), L.Initial(), map[], {}) }

  lemma StartInv(cpus: set<G.Cpu>)
    ensures Inv(Start(cpus))
  {
    hide G.Inv, L.Inv;
    G.InitialInv(cpus);
    L.InitialInv();
  }

  /** A reader standing on a removed entry watches it. */
  lemma StandingWatches(s: L.State, i: nat, d: L.Id)
    requires L.Inv(s) && i in s.readers && s.readers[i].pos == L.On(d) && d in s.h.dead
    ensures Watches(s, i, d)
  {
    hide L.Linked, L.Back, L.Trails, L.PcOk;
    assert L.ReaderOk(s.h, s.readers[i]) && L.Ordered(s.h);
  }

  /** In every run of the list and the grace periods together, whatever is added, removed, iterated, deferred and
      used again: no reader stands on memory given back, except by a callback set to wait for a period its reader
      had passed. */
  lemma ReadersKeepMemory(cpus: set<G.Cpu>, run: seq<Step>, i: nat, f: G.Callback)
    requires CanAll(Start(cpus), run) && Dangling(Done(Start(cpus), run), i, f)
    ensures f in Done(Start(cpus), run).rcu.rushed
  {
    hide CanAll, Done, L.Inv, G.Inv, Watches;
    StartInv(cpus);
    RunInv(Start(cpus), run);
    var s := Done(Start(cpus), run);
    assert PendingOk(s, f);
    StandingWatches(s.list, i, s.frees[f]);
  }

  /** So the memory a callback gives back may be used again at once: the list's own condition for it holds. */
  lemma ReuseAllowed(cpus: set<G.Cpu>, run: seq<Step>, f: G.Callback, next: L.Id, prev: L.Id)
    requires CanAll(Start(cpus), run)
    requires var s := Done(Start(cpus), run); f in s.ran && f !in s.rcu.rushed
    ensures Can(Done(Start(cpus), run), Reuse(f, next, prev))
  {
    hide CanAll, Done, L.Inv, G.Inv;
    StartInv(cpus);
    RunInv(Start(cpus), run);
    var s := Done(Start(cpus), run);
    assert PendingOk(s, f);
    Unwatched(s.list, s.frees[f]);
  }

  lemma Unwatched(s: L.State, d: L.Id)
    requires d in s.h.dead && forall i :: !Watches(s, i, d)
    ensures !L.Watched(s.readers, s.h.dead[d])
  {
    if L.Watched(s.readers, s.h.dead[d]) {
      var i :| i in s.readers && s.readers[i].start < s.h.dead[d];
      assert Watches(s, i, d);
    }
  }

  // ---- exactly when -----------------------------------------------------------------------------------------

  /** As long as callback f is pending it spares reader r, and afterwards r does not watch the entry. */
  ghost predicate Kept(s: Both, a: G.Cpu, f: G.Callback, r: nat) {
    && f in s.rcu.owed
    && (f in s.frees ==> if f in s.ran then !Watches(s.list, r, s.frees[f]) else G.Spared(s.rcu, a, f, r))
  }

  lemma GraceKept(s: Both, x: G.Action, a: G.Cpu, f: G.Callback, r: nat)
    requires Inv(s) && Can(s, Grace(x)) && Kept(s, a, f, r)
    ensures Kept(Do(s, Grace(x)), a, f, r)
  {
    hide G.Inv, L.Inv, G.Apply, G.Enabled, G.Spared;
    GraceKeeps(s.rcu, x, f);
    if f in s.frees && f !in s.ran {
      assert PendingOk(s, f);
      G.SparedStep(s.rcu, x, a, f, r);
      if f in Runs(s.rcu, x) { G.SparedReady(s.rcu, a, f, r, x.cpu); }
    }
  }

  lemma KeptStep(s: Both, x: Step, a: G.Cpu, f: G.Callback, r: nat)
    requires Inv(s) && Can(s, x) && Kept(s, a, f, r)
    ensures Kept(Do(s, x), a, f, r)
  {
    hide G.Inv, L.Inv, G.Apply, G.Enabled, G.Spared, L.Apply, L.Enabled, Watches;
    if f in s.frees { assert PendingOk(s, f); }
    match x
    case Grace(b) => GraceKept(s, b, a, f, r);
    case List(b) => if f in s.frees { ListKeeps(s.list, b, s.frees[f], r); }
    case Defer(c, g, d) =>
      CallKeeps(s.rcu, c, g);
      if f in s.frees && f !in s.ran { G.SparedStep(s.rcu, G.Call(c, g), a, f, r); }
    case Reuse(g, n, p) => if f in s.frees && f != g { ListKeeps(s.list, L.Reclaim(s.frees[g], n, p), s.frees[f], r); }
  }

  lemma {:induction false} KeptRun(s: Both, run: seq<Step>, a: G.Cpu, f: G.Callback, r: nat)
    requires Inv(s) && CanAll(s, run) && Kept(s, a, f, r)
    ensures Inv(Done(s, run)) && Kept(Done(s, run), a, f, r)
    decreases |run|
  {
    hide Inv, Can, Do, Kept;
    if run == [] {
    } else {
      StepInv(s, run[0]);
      KeptStep(s, run[0], a, f, r);
      KeptRun(Do(s, run[0]), run[1..], a, f, r);
    }
  }

  lemma KeptSafe(s: Both, a: G.Cpu, f: G.Callback, r: nat)
    requires Inv(s) && Kept(s, a, f, r)
    ensures !Dangling(s, r, f)
  {
    hide L.Inv, G.Inv, Watches;
    if Dangling(s, r, f) {
      assert PendingOk(s, f);
      StandingWatches(s.list, r, s.frees[f]);
    }
  }

  ghost function Lifted(run: seq<G.Action>): seq<Step> { seq(|run|, i requires 0 <= i < |run| => Grace(run[i])) }

  /** Grace actions alone: a reader that is still owed at the end has not moved. */
  lemma {:induction false} Lift(s: Both, run: seq<G.Action>, f: G.Callback, r: nat)
    requires Inv(s) && G.Possible(s.rcu, run) && f in s.rcu.owed
    ensures CanAll(s, Lifted(run)) && var t := Done(s, Lifted(run));
      && Inv(t) && t.rcu == G.After(s.rcu, run) && t.frees == s.frees && f in t.rcu.owed && t.rcu.owed[f] <= s.rcu.owed[f]
      && (r in t.rcu.owed[f] && r in s.list.readers ==> r in t.list.readers && t.list.readers[r] == s.list.readers[r])
    decreases |run|
  {
    hide Inv, G.Enabled, G.Apply;
    if run == [] {
      assert Lifted(run) == [];
    } else {
      var x := Grace(run[0]);
      assert G.Inv(s.rcu) by { Parts(s); }
      GraceKeeps(s.rcu, run[0], f);
      StepInv(s, x);
      Lift(Do(s, x), run[1..], f, r);
      assert Lifted(run)[1..] == Lifted(run[1..]);
    }
  }

  lemma Parts(s: Both)
    requires Inv(s)
    ensures G.Inv(s.rcu) && L.Inv(s.list) && forall f :: f in s.frees ==> PendingOk(s, f)
  {}

  lemma {:induction false} Then(s: Both, a: seq<Step>, b: seq<Step>)
    requires CanAll(s, a) && CanAll(Done(s, a), b)
    ensures CanAll(s, a + b) && Done(s, a + b) == Done(Done(s, a), b)
    decreases |a|
  {
    hide Can, Do;
    if a == [] {
      assert a + b == b;
    } else {
      Then(Do(s, a[0]), a[1..], b);
      assert (a + b)[1..] == a[1..] + b && (a + b)[0] == a[0];
    }
  }

  lemma One(s: Both, x: Step)
    requires Can(s, x)
    ensures CanAll(s, [x]) && Done(s, [x]) == Do(s, x)
  {
    hide Can, Do;
    assert [x][1..] == [];
  }

  /** A callback that is ready too early for reader r gives back the memory under it. */
  lemma GivesBack(s: Both, a: G.Cpu, f: G.Callback, r: nat) returns (run: seq<Step>)
    requires Inv(s) && G.EarlyFor(s.rcu, a, f, r)
    ensures CanAll(s, run) && var t := Done(s, run); t.frees == s.frees && t.list == s.list && (f in s.frees ==> f in t.ran)
  {
    hide L.Inv, G.Late, G.Unique;
    assert G.LocalOk(s.rcu, s.rcu.local[a]);
    var tag, invoke := Grace(G.Tag(a)), Grace(G.InvokeAgain(a));
    if s.rcu.local[a].pc.Tagging? {
      var t := Do(s, tag);
      var u := Do(t, invoke);
      hide Can, Do, G.Enabled, G.Apply;
      One(s, tag);
      One(t, invoke);
      Then(s, [tag], [invoke]);
      run := [tag] + [invoke];
    } else {
      var u := Do(s, invoke);
      hide Can, Do, G.Enabled, G.Apply;
      One(s, invoke);
      run := [invoke];
    }
  }

  /** As CPU a tags its callbacks, it had found no period active, or r has yet to acknowledge the one under way, or that
      one never ends. */
  ghost predicate Shielded(s: G.Rcu, a: G.Cpu, r: nat) {
    a in s.local && s.local[a].pc.Tagging? && (!s.local[a].pc.wasActive || (s.active && (r in s.ack || s.ack == {})))
  }

  /** A reader stands on the removed entry that callback f is to give back, and f is tagged with the period it waits
      for. In every continuation the memory stays until the reader has gone, if and only if no period had been found
      active, or the reader has yet to acknowledge the one under way, or that one never ends. */
  lemma DanglingExact(s: Both, a: G.Cpu, f: G.Callback, r: nat, t: Both)
    requires Inv(s) && G.Tags(s.rcu, a, f) && f !in s.rcu.rushed && f in s.frees && f !in s.ran
    requires r in s.list.readers && s.list.readers[r].pos == L.On(s.frees[f])
    requires Can(s, Grace(G.Tag(a))) && t == Do(s, Grace(G.Tag(a)))
    ensures (forall run :: CanAll(t, run) ==> !Dangling(Done(t, run), r, f)) <==> Shielded(s.rcu, a, r)
  {
    hide Inv, CanAll, Done, Dangling, G.Spared, G.Apply, G.Enabled, L.Inv, G.Inv, G.Possible, G.After, Watches,
      G.EarlyFor, G.Tags;
    StepInv(s, Grace(G.Tag(a)));
    Parts(s);
    G.Known(s.rcu, a, f);
    GraceKeeps(s.rcu, G.Tag(a), f);
    StandingWatches(s.list, r, s.frees[f]);
    if Shielded(s.rcu, a, r) {
      G.TaggedSpared(s.rcu, a, f, r);
      assert Kept(t, a, f, r);
      forall run | CanAll(t, run) ensures !Dangling(Done(t, run), r, f) {
        KeptRun(t, run, a, f, r);
        KeptSafe(Done(t, run), a, f, r);
      }
    } else {
      var early := G.LateRunsEarly(s.rcu, a, f, r, t.rcu);
      Lift(t, early, f, r);
      var u := Done(t, Lifted(early));
      EarlyOwed(u.rcu, a, f, r);
      var last := GivesBack(u, a, f, r);
      Then(t, Lifted(early), last);
      assert Dangling(Done(u, last), r, f) by { NowDangling(Done(u, last), r, f); }
    }
  }

  lemma EarlyOwed(s: G.Rcu, a: G.Cpu, f: G.Callback, r: nat)
    requires G.EarlyFor(s, a, f, r)
    ensures f in s.owed && r in s.owed[f]
  {}

  lemma NowDangling(s: Both, r: nat, f: G.Callback)
    requires f in s.ran && f in s.frees && r in s.list.readers && s.list.readers[r].pos == L.On(s.frees[f])
    ensures Dangling(s, r, f)
  {}

  // ---- such a case is reached ---------------------------------------------------------------------------------

  lemma Extend(s: Both, run: seq<Step>, x: Step)
    requires CanAll(s, run) && Can(Done(s, run), x)
    ensures CanAll(s, run + [x]) && Done(s, run + [x]) == Do(Done(s, run), x)
  {
    hide Can, Do, CanAll, Done;
    One(Done(s, run), x);
    Then(s, run, [x]);
  }

  /** Grace actions while the list is not in use. */
  lemma {:induction false} LiftIdle(s: Both, run: seq<G.Action>)
    requires G.Possible(s.rcu, run) && s.list == L.Initial() && s.frees == map[] && s.ran == {}
    ensures CanAll(s, Lifted(run)) && Done(s, Lifted(run)) == Both(G.After(s.rcu, run), L.Initial(), map[], {})
    decreases |run|
  {
    hide G.Enabled, G.Apply;
    if run == [] {
      assert Lifted(run) == [];
    } else {
      var t := Do(s, Grace(run[0]));
      assert t.list == L.Initial() && t.ran == {};
      LiftIdle(t, run[1..]);
      assert Lifted(run)[1..] == Lifted(run[1..]);
    }
  }

  /** Entry 1 is in the list, CPU 1 iterates and stands on it, and it is removed. */
  ghost predicate Stands(l: L.State) {
    l.h.dead == map[1 := 1] && l.pc.Idle? && l.readers == map[1 := L.Reader(L.On(1), 0, {}, [1])]
  }

  lemma RemovesUnderReader(s: Both) returns (run: seq<Step>)
    requires s.list == L.Initial() && 1 in s.rcu.reading
    ensures CanAll(s, run) && var t := Done(s, run); t == Both(s.rcu, t.list, s.frees, s.ran) && Stands(t.list)
  {
    hide CanAll, Done, G.Enabled;
    var l1 := L.Apply(s.list, L.BeginAdd(L.HEAD, 1));
    var l2 := L.Apply(l1, L.StoreAdd);
    var l3 := L.Apply(l2, L.StoreAdd);
    var l4 := L.Apply(l3, L.StoreAdd);
    assert l4.next == map[0 := 1, 1 := 0] && l4.prev == map[0 := 1, 1 := 0] && l4.h.live == {1} && l4.pc.Idle?;
    run := OnList(s, [L.BeginAdd(L.HEAD, 1), L.StoreAdd, L.StoreAdd, L.StoreAdd], [s.list, l1, l2, l3, l4]);
    var rest := Removes(Done(s, run));
    Then(s, run, rest);
    run := run + rest;
  }

  lemma Removes(s: Both) returns (run: seq<Step>)
    requires s.list.next == map[0 := 1, 1 := 0] && s.list.prev == map[0 := 1, 1 := 0] && s.list.h.live == {1}
    requires s.list.pc.Idle?
    requires s.list.h.dead == map[] && s.list.h.clock == 0 && s.list.readers == map[] && 1 in s.rcu.reading
    ensures CanAll(s, run) && var t := Done(s, run); t == Both(s.rcu, t.list, s.frees, s.ran) && Stands(t.list)
  {
    hide CanAll, Done, G.Enabled;
    var l1 := L.Apply(s.list, L.BeginRead(1));
    var l2 := L.Apply(l1, L.Advance(1));
    var none: seq<L.Id>, one: set<L.Id> := [], {1};
    assert none + [1] == [1] && one - {1} == {};
    assert l2.readers == map[1 := L.Reader(L.On(1), 0, {1}, [1])];
    var l3 := L.Apply(l2, L.Unlink(1));
    var l4 := L.Apply(l3, L.Relink);
    assert l4.readers == map[1 := L.Reader(L.On(1), 0, {}, [1])];
    run := OnList(s, [L.BeginRead(1), L.Advance(1), L.Unlink(1), L.Relink], [s.list, l1, l2, l3, l4]);
  }

  /** List actions one after the other. */
  lemma {:induction false} OnList(s: Both, acts: seq<L.Action>, states: seq<L.State>) returns (run: seq<Step>)
    requires |states| == |acts| + 1 && states[0] == s.list && 1 in s.rcu.reading
    requires forall i :: 0 <= i < |acts| ==> L.Enabled(states[i], acts[i]) && states[i + 1] == L.Apply(states[i], acts[i])
    requires forall i :: 0 <= i < |acts| ==> !acts[i].Reclaim? && (acts[i].BeginRead? ==> acts[i].reader == 1)
    ensures CanAll(s, run) && Done(s, run) == Both(s.rcu, states[|acts|], s.frees, s.ran)
    decreases |acts|
  {
    hide L.Enabled, L.Apply;
    if acts == [] {
      run := [];
    } else {
      var x := List(acts[0]);
      var rest := OnList(Do(s, x), acts[1..], states[1..]);
      run := [x] + rest;
      assert run[1..] == rest;
    }
  }

  /** A callback is queued on CPU 2 while CPU 1 reads and has acknowledged the period under way. */
  ghost predicate Queued(s: G.Rcu) {
    && s.cpus == {0, 1, 2} == s.local.Keys && s.active && s.ack == {0, 2} && s.reading == {1}
    && s.local[2] == G.Local(0, [11], [], [], G.Running, [11], []) && 11 in s.owed && 11 !in s.rushed
  }

  /** CPU 1 reads, and the entry it stands on is removed and passed to rcu_call on CPU 2. */
  lemma QueuesEntry(s: Both) returns (run: seq<Step>)
    requires G.Waits(s.rcu, {0, 2}) && s.list == L.Initial() && s.frees == map[] && s.ran == {}
    ensures CanAll(s, run)
    ensures var t := Done(s, run); Queued(t.rcu) && t.frees == map[11 := 1] && t.ran == {} && Stands(t.list)
  {
    hide CanAll, Done, L.Apply, L.Enabled;
    One(s, Grace(G.BeginRead(1)));
    run := [Grace(G.BeginRead(1))];
    var middle := RemovesUnderReader(Done(s, run));
    Then(s, run, middle);
    run := run + middle;
    Extend(s, run, Defer(2, 11, 1));
    run := run + [Defer(2, 11, 1)];
  }

  /** CPU 2 reports up to the tag. */
  lemma Reports(s: Both) returns (run: seq<Step>)
    requires Queued(s.rcu) && s.frees == map[11 := 1] && s.ran == {}
    ensures CanAll(s, run) && var t := Done(s, run);
      && G.Tags(t.rcu, 2, 11) && t.rcu.local[2].pc.wasActive && t.rcu.active && t.rcu.ack == {0} && 11 !in t.rcu.rushed
      && t.frees == s.frees && t.ran == {} && t.list == s.list
  {
    hide CanAll, Done, L.Apply, L.Enabled;
    One(s, Grace(G.Check(2)));
    run := [Grace(G.Check(2))];
    assert s.rcu.ack - {2} == {0} && 0 in s.rcu.ack - {2};
    Extend(s, run, Grace(G.Invoke(2)));
    run := run + [Grace(G.Invoke(2))];
    Extend(s, run, Grace(G.Advance(2)));
    run := run + [Grace(G.Advance(2))];
  }

  /** From the start: a reader stands on an entry whose memory rcu_call's callback has given back. */
  lemma DanglingReached() returns (run: seq<Step>)
    ensures CanAll(Start({0, 1, 2}), run) && Dangling(Done(Start({0, 1, 2}), run), 1, 11)
  {
    hide CanAll, Done, Inv, Dangling, Queued, G.Waits, G.Possible, G.After, G.Enabled, G.Apply;
    var s := Start({0, 1, 2});
    StartInv({0, 1, 2});
    var first := G.FirstGrace();
    var passes := G.Passes(G.After(s.rcu, first));
    G.Then(s.rcu, first, passes);
    LiftIdle(s, first + passes);
    run := Lifted(first + passes);
    var queues := QueuesEntry(Done(s, run));
    Then(s, run, queues);
    run := run + queues;
    var reports := Reports(Done(s, run));
    Then(s, run, reports);
    run := run + reports;
    RunInv(s, run);
    var u := Done(s, run);
    G.Known(u.rcu, 2, 11);
    Extend(s, run, Grace(G.Tag(2)));
    DanglingExact(u, 2, 11, 1, Do(u, Grace(G.Tag(2))));
    var rest :| CanAll(Do(u, Grace(G.Tag(2))), rest) && Dangling(Done(Do(u, Grace(G.Tag(2))), rest), 1, 11);
    run := run + [Grace(G.Tag(2))];
    Then(s, run, rest);
    run := run + rest;
  }
}
