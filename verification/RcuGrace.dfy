/** The grace periods behind rcu_call (src/kernel/sync/rcu.c): CPUs enter and leave read sections, queue callbacks and
    report quiescent states, in any interleaving. */
module RcuGrace {
  import opened Common

  type Cpu = nat
  type Callback = nat

  /** Inside rcu_report_quiescent: checked, ready callbacks run, batch moved with the activity read but not yet the
      period, lists advanced, ready callbacks run again. */
  datatype Pc = Running | Checked(wake: bool) | Invoked(wake: bool) | Tagging(wasActive: bool) | Advanced | Finished

  /** Per-CPU state; called and done list the callbacks queued and run so far. */
  datatype Local = Local(grace: nat, batch: seq<Callback>, waiting: seq<Callback>, ready: seq<Callback>, pc: Pc,
                         called: seq<Callback>, done: seq<Callback>)

  /** owed: for each callback, the CPUs still in a read section that was open when it was queued. rushed: the callbacks
      that were set to wait for a grace period already passed by such a CPU. */
  datatype Rcu = Rcu(cpus: set<Cpu>, grace: nat, active: bool, ack: set<Cpu>, local: map<Cpu, Local>,
                     reading: set<Cpu>, owed: map<Callback, set<Cpu>>, rushed: set<Callback>)

  datatype Action =
    | BeginRead(cpu: Cpu)
    | EndRead(cpu: Cpu)
    | Call(cpu: Cpu, callback: Callback)
    | Check(cpu: Cpu)
    | Invoke(cpu: Cpu)
    | Advance(cpu: Cpu)
    | Tag(cpu: Cpu)
    | InvokeAgain(cpu: Cpu)
    | Start(cpu: Cpu, idle: set<Cpu>)

  ghost predicate Enabled(s: Rcu, a: Action) {
    && a.cpu in s.cpus && a.cpu in s.local
    && match a
       case BeginRead(c) => s.local[c].pc.Running? && c !in s.reading
       case EndRead(c) => c in s.reading
       case Call(c, f) => f !in s.owed
       case Check(c) => s.local[c].pc.Running? && c !in s.reading
       case Invoke(c) => s.local[c].pc.Checked?
       case Advance(c) => s.local[c].pc.Invoked?
       case Tag(c) => s.local[c].pc.Tagging?
       case InvokeAgain(c) => s.local[c].pc.Advanced?
       case Start(c, idle) => s.local[c].pc.Finished? && idle !! s.reading
  }

  ghost function Put(s: Rcu, c: Cpu, l: Local): Rcu {
    Rcu(s.cpus, s.grace, s.active, s.ack, s.local[c := l], s.reading, s.owed, s.rushed)
  }

  /** A CPU leaves its read section. */
  ghost function Settle(owed: map<Callback, set<Cpu>>, c: Cpu): map<Callback, set<Cpu>> {
    map f | f in owed :: owed[f] - {c}
  }

  /** rcu_check_quiescent: acknowledge, end the grace period with the last acknowledgement, look at the waiting list. */
  ghost function CheckQuiescent(s: Rcu, c: Cpu): Rcu
    requires c in s.local
  {
    var l := s.local[c];
    var ack := if s.active then s.ack - {c} else s.ack;
    var active := s.active && (c !in s.ack || ack != {});
    var wake := l.waiting != [] && (s.grace > l.grace || (s.grace == l.grace && !active));
    Rcu(s.cpus, s.grace, active, ack, s.local[c := l.(pc := Checked(wake))], s.reading, s.owed, s.rushed)
  }

  ghost function Run(l: Local, pc: Pc): Local { l.(done := l.done + l.ready, ready := [], pc := pc) }

  /** rcu_advance: waiting callbacks become ready, then the batch starts to wait, and the activity is read. */
  ghost function AdvanceLists(s: Rcu, c: Cpu): Rcu
    requires c in s.local && s.local[c].pc.Invoked?
  {
    var l := s.local[c];
    var m := if l.pc.wake then l.(ready := l.waiting, waiting := l.ready) else l;
    if m.waiting == [] && m.batch != []
    then Put(s, c, m.(waiting := m.batch, batch := [], grace := s.grace + 1, pc := Tagging(s.active)))
    else Put(s, c, m.(pc := Advanced))
  }

  /** The readers owed are all waited for: the period under way has yet to be acknowledged by them, or none are left. */
  ghost predicate Covers(s: Rcu, owed: set<Cpu>) { if s.active then owed <= s.ack else owed == {} }

  /** The waiting callbacks that the period they are tagged with does not cover. */
  ghost function Late(s: Rcu, l: Local): set<Callback>
    requires l.pc.Tagging?
  {
    set f | f in l.waiting && l.pc.wasActive && f in s.owed && !Covers(s, s.owed[f])
  }

  /** The end of rcu_advance: the period is read, and the batch waits for it or, if none was active, for the next. */
  ghost function TagBatch(s: Rcu, c: Cpu): Rcu
    requires c in s.local && s.local[c].pc.Tagging?
  {
    var l := s.local[c];
    var m := l.(grace := if l.pc.wasActive then s.grace else s.grace + 1, pc := Advanced);
    Rcu(s.cpus, s.grace, s.active, s.ack, s.local[c := m], s.reading, s.owed, s.rushed + Late(s, l))
  }

  /** rcu_start_grace: idle CPUs need not acknowledge. */
  ghost function StartGrace(s: Rcu, c: Cpu, idle: set<Cpu>): Rcu
    requires c in s.local
  {
    var l := s.local[c].(pc := Running);
    if l.waiting == [] || s.active then Put(s, c, l)
    else Rcu(s.cpus, s.grace + 1, true, s.cpus - idle, s.local[c := l], s.reading, s.owed, s.rushed)
  }

  ghost function Apply(s: Rcu, a: Action): Rcu
    requires Enabled(s, a)
  {
    match a
    case BeginRead(c) => Rcu(s.cpus, s.grace, s.active, s.ack, s.local, s.reading + {c}, s.owed, s.rushed)
    case EndRead(c) => Rcu(s.cpus, s.grace, s.active, s.ack, s.local, s.reading - {c}, Settle(s.owed, c), s.rushed)
    case Call(c, f) =>
      var l := s.local[c];
      Rcu(s.cpus, s.grace, s.active, s.ack, s.local[c := l.(batch := l.batch + [f], called := l.called + [f])],
          s.reading, s.owed[f := s.reading], s.rushed)
    case Check(c) => CheckQuiescent(s, c)
    case Invoke(c) => Put(s, c, Run(s.local[c], Invoked(s.local[c].pc.wake)))
    case Advance(c) => AdvanceLists(s, c)
    case Tag(c) => TagBatch(s, c)
    case InvokeAgain(c) => Put(s, c, Run(s.local[c], Finished))
    case Start(c, idle) => StartGrace(s, c, idle)
  }

  // ---- the invariant ----------------------------------------------------------------------------------

  ghost predicate Basic(s: Rcu) {
    && s.local.Keys == s.cpus && s.reading <= s.cpus && s.ack <= s.cpus && (!s.active ==> s.ack == {})
    && (forall f :: f in s.owed ==> s.owed[f] <= s.reading)
    && (forall f :: f in s.rushed ==> f in s.owed)
    && (forall c :: c in s.reading ==> c in s.local && s.local[c].pc.Running?)
  }

  /** Nothing is lost, repeated or reordered on a CPU, and ready callbacks are run before the report ends. */
  ghost predicate ListsOk(s: Rcu, l: Local) {
    && l.called == l.done + l.ready + l.waiting + l.batch
    && (forall f :: f in l.called ==> f in s.owed)
    && (l.ready != [] ==> l.pc.Tagging? || l.pc.Advanced?)
  }

  /** Once the grace period p is over nobody is owed any more; while it runs, only CPUs yet to acknowledge are. */
  ghost predicate Due(s: Rcu, p: nat, owed: set<Cpu>) {
    && (s.grace > p ==> owed == {})
    && (s.grace == p ==> Covers(s, owed))
  }

  ghost predicate WaitOk(s: Rcu, l: Local) {
    forall f :: f in l.waiting && f in s.owed && f !in s.rushed && !l.pc.Tagging? ==>
      Due(s, l.grace, s.owed[f]) && ((l.pc.Checked? || l.pc.Invoked?) && l.pc.wake ==> s.owed[f] == {})
  }

  ghost predicate ReadyOk(s: Rcu, l: Local) {
    forall f :: f in l.ready && f in s.owed && f !in s.rushed ==> s.owed[f] == {}
  }

  ghost predicate LocalOk(s: Rcu, l: Local) { ListsOk(s, l) && WaitOk(s, l) && ReadyOk(s, l) }

  /** No callback is queued twice. */
  ghost predicate Unique(local: map<Cpu, Local>) {
    && (forall c, d, f :: c in local && d in local && f in local[c].called && f in local[d].called ==> c == d)
    && (forall c :: c in local ==> Distinct(local[c].called))
  }

  ghost predicate Inv(s: Rcu) {
    Basic(s) && Unique(s.local) && forall c :: c in s.local ==> LocalOk(s, s.local[c])
  }

  /** Replacing the lists of one CPU without queuing anything keeps callbacks apart. */
  lemma UniqueKept(local: map<Cpu, Local>, c: Cpu, l: Local)
    requires Unique(local) && c in local && l.called == local[c].called
    ensures Unique(local[c := l])
  {}

  lemma UniqueCall(s: Rcu, c: Cpu, l: Local, f: Callback)
    requires Inv(s) && c in s.local && f !in s.owed && l.called == s.local[c].called + [f]
    ensures Unique(s.local[c := l])
  {
    forall d | d in s.local ensures f !in s.local[d].called { assert LocalOk(s, s.local[d]); }
  }

  ghost function Blank(): Local { Local(0, [], [], [], Running, [], []) }

  ghost function Initial(cpus: set<Cpu>): Rcu {
    Rcu(cpus, 0, false, {}, map c | c in cpus :: Blank(), {}, map[], {})
  }

  lemma InitialInv(cpus: set<Cpu>)
    ensures Inv(Initial(cpus))
  {}

  lemma BeginReadInv(s: Rcu, c: Cpu)
    requires Inv(s) && Enabled(s, BeginRead(c))
    ensures Inv(Apply(s, BeginRead(c)))
  {
    hide Unique;
    var t := Apply(s, BeginRead(c));
    forall d | d in t.local ensures LocalOk(t, t.local[d]) { assert LocalOk(s, s.local[d]); }
  }

  lemma EndReadInv(s: Rcu, c: Cpu)
    requires Inv(s) && Enabled(s, EndRead(c))
    ensures Inv(Apply(s, EndRead(c)))
  {
    hide Unique;
    var t := Apply(s, EndRead(c));
    forall d | d in t.local ensures LocalOk(t, t.local[d]) { assert LocalOk(s, s.local[d]); }
  }

  /** A new callback concerns no list but the batch it joins. */
  lemma FreshCallback(s: Rcu, t: Rcu, l: Local, f: Callback)
    requires LocalOk(s, l) && f !in s.owed && f !in s.rushed
    requires t == Rcu(s.cpus, s.grace, s.active, s.ack, t.local, s.reading, s.owed[f := s.reading], s.rushed)
    ensures LocalOk(t, l) && LocalOk(t, l.(batch := l.batch + [f], called := l.called + [f]))
  {
    assert forall g :: g in l.waiting ==> g in l.called;
    assert forall g :: g in l.ready ==> g in l.called;
  }

  lemma CallInv(s: Rcu, c: Cpu, f: Callback)
    requires Inv(s) && Enabled(s, Call(c, f))
    ensures Inv(Apply(s, Call(c, f)))
  {
    hide LocalOk, Unique;
    var t := Apply(s, Call(c, f));
    UniqueCall(s, c, t.local[c], f);
    forall d | d in t.local ensures LocalOk(t, t.local[d]) { FreshCallback(s, t, s.local[d], f); }
  }

  /** A CPU outside a read section acknowledges: it is owed by nobody, so nothing is lost. */
  lemma AckOk(s: Rcu, t: Rcu, c: Cpu, l: Local)
    requires Basic(s) && LocalOk(s, l) && c !in s.reading
    requires t == Rcu(s.cpus, s.grace, t.active, t.ack, t.local, s.reading, s.owed, s.rushed)
    requires t.ack == (if s.active then s.ack - {c} else s.ack) && t.active == (s.active && (c !in s.ack || t.ack != {}))
    ensures LocalOk(t, l)
    ensures l.pc.Running? ==>
      LocalOk(t, l.(pc := Checked(l.waiting != [] && (t.grace > l.grace || (t.grace == l.grace && !t.active)))))
  {
    forall f | f in l.waiting && f in s.owed && f !in s.rushed && !l.pc.Tagging? ensures Due(t, l.grace, s.owed[f]) {
      assert Due(s, l.grace, s.owed[f]) && c !in s.owed[f];
    }
  }

  lemma CheckInv(s: Rcu, c: Cpu)
    requires Inv(s) && Enabled(s, Check(c))
    ensures Inv(Apply(s, Check(c)))
  {
    hide LocalOk, Unique;
    var t := Apply(s, Check(c));
    UniqueKept(s.local, c, t.local[c]);
    forall d | d in t.local ensures LocalOk(t, t.local[d]) { AckOk(s, t, c, s.local[d]); }
  }

  /** Adding to the rushed callbacks only weakens what is promised. */
  lemma MoreRushed(s: Rcu, t: Rcu, l: Local)
    requires LocalOk(s, l) && s.rushed <= t.rushed
    requires t == Rcu(s.cpus, s.grace, s.active, s.ack, t.local, s.reading, s.owed, t.rushed)
    ensures LocalOk(t, l)
  {}

  /** The waiting list becomes ready. */
  lemma WakeOk(s: Rcu, l: Local)
    requires LocalOk(s, l) && l.pc.Invoked? && l.pc.wake
    ensures LocalOk(s, l.(ready := l.waiting, waiting := l.ready, pc := Advanced)) && l.ready == []
  {
    assert l.called == l.done + l.waiting + l.ready + l.batch;
  }

  /** The batch becomes the waiting list. */
  lemma PromoteOk(s: Rcu, m: Local)
    requires LocalOk(s, m) && m.waiting == [] && m.pc.Advanced?
    ensures LocalOk(s, m.(waiting := m.batch, batch := [], grace := s.grace + 1, pc := Tagging(s.active)))
  {
    assert m.called == m.done + m.ready + m.batch + [];
  }

  lemma AdvanceInv(s: Rcu, c: Cpu)
    requires Inv(s) && Enabled(s, Advance(c))
    ensures Inv(Apply(s, Advance(c)))
  {
    hide LocalOk, Unique;
    var t := Apply(s, Advance(c));
    UniqueKept(s.local, c, t.local[c]);
    var l := s.local[c];
    var m := if l.pc.wake then l.(ready := l.waiting, waiting := l.ready, pc := Advanced) else l.(pc := Advanced);
    if l.pc.wake { WakeOk(s, l); } else { NoWake(s, l); }
    if m.waiting == [] && m.batch != [] { PromoteOk(s, m); }
    forall d | d in t.local && d != c ensures LocalOk(t, t.local[d]) { SameOk(s, t, s.local[d]); }
    SameOk(s, t, t.local[c]);
  }

  lemma NoWake(s: Rcu, l: Local)
    requires LocalOk(s, l) && l.pc.Invoked?
    ensures LocalOk(s, l.(pc := Advanced))
  {}

  /** A tag covers what is not late. */
  lemma TagOk(s: Rcu, t: Rcu, l: Local)
    requires LocalOk(s, l) && l.pc.Tagging?
    requires t == Rcu(s.cpus, s.grace, s.active, s.ack, t.local, s.reading, s.owed, s.rushed + Late(s, l))
    ensures LocalOk(t, l.(grace := if l.pc.wasActive then s.grace else s.grace + 1, pc := Advanced))
  {}

  lemma TagInv(s: Rcu, c: Cpu)
    requires Inv(s) && Enabled(s, Tag(c))
    ensures Inv(Apply(s, Tag(c)))
  {
    hide LocalOk, Late, Unique;
    var t := Apply(s, Tag(c));
    UniqueKept(s.local, c, t.local[c]);
    TagOk(s, t, s.local[c]);
    LateKnown(s, s.local[c]);
    forall d | d in t.local && d != c ensures LocalOk(t, t.local[d]) { MoreRushed(s, t, s.local[d]); }
  }

  lemma LateKnown(s: Rcu, l: Local)
    requires l.pc.Tagging?
    ensures forall f :: f in Late(s, l) ==> f in s.owed
  {}

  lemma RunOk(s: Rcu, l: Local, pc: Pc)
    requires LocalOk(s, l) && ((l.pc.Advanced? && pc == Finished) || (l.pc.Checked? && pc == Invoked(l.pc.wake)))
    ensures LocalOk(s, Run(l, pc))
  {
    assert l.done + l.ready + [] == l.done + l.ready;
  }

  lemma SameOk(s: Rcu, t: Rcu, l: Local)
    requires LocalOk(s, l) && t == Rcu(s.cpus, s.grace, s.active, s.ack, t.local, s.reading, s.owed, s.rushed)
    ensures LocalOk(t, l)
  {}

  lemma InvokeInv(s: Rcu, a: Action)
    requires Inv(s) && Enabled(s, a) && (a.Invoke? || a.InvokeAgain?)
    ensures Inv(Apply(s, a))
  {
    hide LocalOk, Unique;
    var t := Apply(s, a);
    UniqueKept(s.local, a.cpu, t.local[a.cpu]);
    RunOk(s, s.local[a.cpu], t.local[a.cpu].pc);
    forall d | d in t.local && d != a.cpu ensures LocalOk(t, t.local[d]) { SameOk(s, t, s.local[d]); }
    SameOk(s, t, t.local[a.cpu]);
  }

  /** A new grace period begins when the last is over, and every CPU in a read section has to acknowledge. */
  lemma NewGraceOk(s: Rcu, t: Rcu, idle: set<Cpu>, l: Local)
    requires Basic(s) && LocalOk(s, l) && !s.active && idle !! s.reading
    requires t == Rcu(s.cpus, s.grace + 1, true, s.cpus - idle, t.local, s.reading, s.owed, s.rushed)
    ensures LocalOk(t, l)
  {}

  lemma BackToRunning(s: Rcu, l: Local)
    requires LocalOk(s, l) && l.pc.Finished?
    ensures LocalOk(s, l.(pc := Running))
  {}

  lemma StartInv(s: Rcu, c: Cpu, idle: set<Cpu>)
    requires Inv(s) && Enabled(s, Start(c, idle))
    ensures Inv(Apply(s, Start(c, idle)))
  {
    hide LocalOk, Unique;
    var t := Apply(s, Start(c, idle));
    UniqueKept(s.local, c, t.local[c]);
    BackToRunning(s, s.local[c]);
    forall d | d in t.local ensures LocalOk(t, t.local[d]) {
      var l := if d == c then s.local[c].(pc := Running) else s.local[d];
      if t.grace == s.grace { SameOk(s, t, l); } else { NewGraceOk(s, t, idle, l); }
    }
  }

  // ---- whole runs -------------------------------------------------------------------------------------

  lemma StepInv(s: Rcu, a: Action)
    requires Inv(s) && Enabled(s, a)
    ensures Inv(Apply(s, a))
  {
    hide Inv, Apply, Enabled;
    match a
    case BeginRead(c) => BeginReadInv(s, c);
    case EndRead(c) => EndReadInv(s, c);
    case Call(c, f) => CallInv(s, c, f);
    case Check(c) => CheckInv(s, c);
    case Invoke(_) => InvokeInv(s, a);
    case Advance(c) => AdvanceInv(s, c);
    case Tag(c) => TagInv(s, c);
    case InvokeAgain(_) => InvokeInv(s, a);
    case Start(c, idle) => StartInv(s, c, idle);
  }

  ghost predicate Possible(s: Rcu, run: seq<Action>)
    decreases |run|
  {
    run == [] || (Enabled(s, run[0]) && Possible(Apply(s, run[0]), run[1..]))
  }

  ghost function After(s: Rcu, run: seq<Action>): Rcu
    requires Possible(s, run)
    decreases |run|
  {
    if run == [] then s else After(Apply(s, run[0]), run[1..])
  }

  lemma {:induction false} RunInv(s: Rcu, run: seq<Action>)
    requires Inv(s) && Possible(s, run)
    ensures Inv(After(s, run))
    decreases |run|
  {
    hide Inv, Enabled, Apply;
    if run == [] {
    } else {
      StepInv(s, run[0]);
      RunInv(Apply(s, run[0]), run[1..]);
    }
  }

  // ---- what the callers did, read off the run ---------------------------------------------------------------

  /** The callbacks passed to rcu_call on CPU c, in order. */
  function Passed(run: seq<Action>, c: Cpu): seq<Callback> {
    if run == [] then [] else PassedBy(run[0], c) + Passed(run[1..], c)
  }

  function PassedBy(a: Action, c: Cpu): seq<Callback> { if a.Call? && a.cpu == c then [a.callback] else [] }

  /** The CPUs in a read section that was open when f was queued and has been open ever since: reading are those in any
      section at the start of the run, owing those in such a section already. */
  function Outlasting(reading: set<Cpu>, owing: set<Cpu>, run: seq<Action>, f: Callback): set<Cpu>
    decreases |run|
  {
    if run == [] then owing
    else match run[0]
      case BeginRead(c) => Outlasting(reading + {c}, owing, run[1..], f)
      case EndRead(c) => Outlasting(reading - {c}, owing - {c}, run[1..], f)
      case Call(_, g) => Outlasting(reading, if g == f then reading else owing, run[1..], f)
      case _ => Outlasting(reading, owing, run[1..], f)
  }

  ghost function OwedNow(s: Rcu, f: Callback): set<Cpu> { if f in s.owed then s.owed[f] else {} }

  lemma StepPassed(s: Rcu, a: Action, c: Cpu)
    requires Enabled(s, a) && c in s.local
    ensures c in Apply(s, a).local
    ensures Apply(s, a).local[c].called == s.local[c].called + PassedBy(a, c)
  {}

  lemma {:induction false} RunPassed(s: Rcu, run: seq<Action>, c: Cpu)
    requires Possible(s, run) && c in s.local
    ensures c in After(s, run).local && After(s, run).local[c].called == s.local[c].called + Passed(run, c)
    decreases |run|
  {
    hide Enabled, Apply, PassedBy;
    if run == [] {
    } else {
      StepPassed(s, run[0], c);
      RunPassed(Apply(s, run[0]), run[1..], c);
      var a, b, r := s.local[c].called, PassedBy(run[0], c), Passed(run[1..], c);
      assert (a + b) + r == a + (b + r);
    }
  }

  lemma StepOwed(s: Rcu, a: Action, f: Callback)
    requires Enabled(s, a)
    ensures Apply(s, a).reading ==
      if a.BeginRead? then s.reading + {a.cpu} else if a.EndRead? then s.reading - {a.cpu} else s.reading
    ensures OwedNow(Apply(s, a), f) ==
      if a.EndRead? then OwedNow(s, f) - {a.cpu} else if a == Call(a.cpu, f) then s.reading else OwedNow(s, f)
  {}

  lemma {:induction false} RunOwed(s: Rcu, run: seq<Action>, f: Callback)
    requires Possible(s, run)
    ensures OwedNow(After(s, run), f) == Outlasting(s.reading, OwedNow(s, f), run, f)
    decreases |run|
  {
    hide Enabled, Apply, OwedNow;
    if run == [] {
    } else {
      StepOwed(s, run[0], f);
      RunOwed(Apply(s, run[0]), run[1..], f);
    }
  }

  /** In every interleaving each CPU runs the callbacks passed to it once each, in order. A callback about to run has
      outlasted every read section that was open when it was passed, unless it was set to wait for a grace period that
      the reader had already acknowledged. */
  lemma GraceKept(cpus: set<Cpu>, run: seq<Action>, c: Cpu, f: Callback)
    requires Possible(Initial(cpus), run) && c in cpus
    ensures c in After(Initial(cpus), run).local
    ensures var s := After(Initial(cpus), run); var l := s.local[c];
      && l.done <= l.called == Passed(run, c)
      && (f in l.ready ==> f in s.rushed || Outlasting({}, {}, run, f) == {})
  {
    hide Possible, After;
    InitialInv(cpus);
    RunInv(Initial(cpus), run);
    RunPassed(Initial(cpus), run, c);
    RunOwed(Initial(cpus), run, f);
    var s := After(Initial(cpus), run);
    assert LocalOk(s, s.local[c]);
    ReadyCalled(s.local[c], f);
  }

  /** rcu_call may come at any time, also inside the caller's own read section, which then counts as well. */
  lemma CallAnywhere(s: Rcu, c: Cpu, f: Callback)
    requires Inv(s) && c in s.cpus && f !in s.owed
    ensures Enabled(s, Call(c, f)) && Apply(s, Call(c, f)).owed[f] == s.reading
  {}

  /** A grace period begins just when a CPU with waiting callbacks finishes its report while none is under way. */
  lemma StartsExactly(s: Rcu, a: Action)
    requires Enabled(s, a)
    ensures var t := Apply(s, a);
      t.grace > s.grace || (t.active && !s.active) <==> a.Start? && !s.active && s.local[a.cpu].waiting != []
  {}

  lemma ReadyCalled(l: Local, f: Callback)
    requires l.called == l.done + l.ready + l.waiting + l.batch
    ensures l.done <= l.called && (f in l.ready ==> f in l.called)
  {
    assert forall i :: 0 <= i < |l.ready| ==> l.ready[i] == l.called[|l.done| + i];
  }

  /** A grace period begun while every CPU is idle has nobody to acknowledge it and never ends. */
  lemma {:induction false} StuckForever(s: Rcu, run: seq<Action>)
    requires s.active && s.ack == {} && Possible(s, run)
    ensures var t := After(s, run); t.active && t.ack == {} && t.grace == s.grace
    decreases |run|
  {
    if run == [] {
    } else {
      var t := Apply(s, run[0]);
      assert t.active && t.ack == {} && t.grace == s.grace;
      hide Apply, Enabled;
      StuckForever(t, run[1..]);
    }
  }

  // ---- finishing a grace period -----------------------------------------------------------------------

  lemma {:induction false} Then(s: Rcu, a: seq<Action>, b: seq<Action>)
    requires Possible(s, a) && Possible(After(s, a), b)
    ensures Possible(s, a + b) && After(s, a + b) == After(After(s, a), b)
    decreases |a|
  {
    hide Enabled, Apply;
    if a == [] {
      assert a + b == b;
    } else {
      Then(Apply(s, a[0]), a[1..], b);
      assert (a + b)[1..] == a[1..] + b && (a + b)[0] == a[0];
    }
  }

  lemma One(s: Rcu, a: Action)
    requires Enabled(s, a)
    ensures Possible(s, [a]) && After(s, [a]) == Apply(s, a)
  {
    hide Enabled, Apply;
    assert [a][1..] == [];
    assert Possible(Apply(s, a), []);
  }

  /** The shared state is the same, and so are the other CPUs. */
  ghost predicate Only(s: Rcu, t: Rcu, d: Cpu) {
    && t.cpus == s.cpus && t.grace == s.grace && t.active == s.active && t.ack == s.ack && t.reading == s.reading
    && t.owed == s.owed && t.local.Keys == s.local.Keys && forall c :: c in s.local && c != d ==> t.local[c] == s.local[c]
  }

  function Left(pc: Pc): nat {
    match pc
    case Running => 0
    case Checked(_) => 5
    case Invoked(_) => 4
    case Tagging(_) => 3
    case Advanced => 2
    case Finished => 1
  }

  ghost function NextStep(pc: Pc, d: Cpu): Action
    requires !pc.Running?
  {
    match pc
    case Checked(_) => Invoke(d)
    case Invoked(_) => Advance(d)
    case Tagging(_) => Tag(d)
    case Advanced => InvokeAgain(d)
    case Finished => Start(d, {})
  }

  lemma FinishStep(s: Rcu, d: Cpu)
    requires Inv(s) && s.active && d in s.cpus && d in s.local && !s.local[d].pc.Running?
    ensures var a := NextStep(s.local[d].pc, d);
      Enabled(s, a) && Only(s, Apply(s, a), d) && Left(Apply(s, a).local[d].pc) < Left(s.local[d].pc)
  {
    hide Inv;
  }

  /** A CPU in the middle of a report comes to its end. */
  lemma {:induction false} FinishReport(s: Rcu, d: Cpu) returns (run: seq<Action>)
    requires Inv(s) && s.active && d in s.cpus && d in s.local
    ensures Possible(s, run) && Inv(After(s, run)) && Only(s, After(s, run), d) && After(s, run).local[d].pc.Running?
    decreases Left(s.local[d].pc)
  {
    hide Inv, Enabled, Apply, Possible, After, Left;
    if s.local[d].pc.Running? {
      run := [];
      Nothing(s);
    } else {
      var a := NextStep(s.local[d].pc, d);
      FinishStep(s, d);
      StepInv(s, a);
      var rest := FinishReport(Apply(s, a), d);
      One(s, a);
      Then(s, [a], rest);
      run := [a] + rest;
    }
  }

  lemma Nothing(s: Rcu)
    ensures Possible(s, []) && After(s, []) == s
  {}

  /** CPU d has acknowledged, and left its read section if it was in one. */
  ghost predicate Acked(s: Rcu, t: Rcu, d: Cpu) {
    && t.cpus == s.cpus && t.grace == s.grace && t.ack == s.ack - {d} && (t.active <==> t.ack != {})
    && t.local.Keys == s.local.Keys && (forall c :: c in s.local && c != d ==> t.local[c] == s.local[c])
    && (forall f, c :: f in s.owed && c in s.owed[f] && c != d ==> f in t.owed && c in t.owed[f])
    && (forall c :: c in t.reading ==> c in s.reading)
  }

  lemma LeaveRead(s: Rcu, d: Cpu)
    requires Basic(s) && d in s.reading && d in s.cpus
    ensures Enabled(s, EndRead(d))
    ensures var t := Apply(s, EndRead(d));
      && t.cpus == s.cpus && t.grace == s.grace && t.active == s.active && t.ack == s.ack && t.local == s.local
      && t.reading == s.reading - {d}
      && forall f, c :: f in s.owed && c in s.owed[f] && c != d ==> f in t.owed && c in t.owed[f]
  {}

  lemma CheckAcks(s: Rcu, d: Cpu)
    requires Basic(s) && s.active && d in s.ack && d !in s.reading && d in s.local && s.local[d].pc.Running?
    ensures Enabled(s, Check(d)) && Acked(s, Apply(s, Check(d)), d)
  {}

  lemma Quiesce(s: Rcu, d: Cpu) returns (run: seq<Action>)
    requires Inv(s) && s.active && d in s.ack && d in s.local
    ensures Possible(s, run) && Inv(After(s, run)) && Acked(s, After(s, run), d)
  {
    hide Enabled, Apply, Possible, After, LocalOk;
    run := FinishReport(s, d);
    var t := After(s, run);
    if d in t.reading {
      LeaveRead(t, d);
      StepInv(t, EndRead(d));
      One(t, EndRead(d));
      Then(s, run, [EndRead(d)]);
      run := run + [EndRead(d)];
    }
    var u := After(s, run);
    CheckAcks(u, d);
    StepInv(u, Check(d));
    One(u, Check(d));
    Then(s, run, [Check(d)]);
    run := run + [Check(d)];
  }

  /** A grace period that has somebody to acknowledge it can always come to its end. */
  lemma {:induction false} CanEnd(s: Rcu) returns (run: seq<Action>)
    requires Inv(s) && s.active && s.ack != {}
    ensures Possible(s, run) && !After(s, run).active && After(s, run).grace == s.grace
    decreases |s.ack|
  {
    hide Enabled, Apply, Possible, After, LocalOk;
    var d :| d in s.ack;
    run := Quiesce(s, d);
    var t := After(s, run);
    if !t.active {
    } else {
      var rest := CanEnd(t);
      Then(s, run, rest);
      run := run + rest;
    }
  }

  // ---- callbacks that run too early -------------------------------------------------------------------

  /** f waits on CPU a for a period that is over or that CPU r has nothing left to acknowledge in, and r is in a read
      section that was open when f was queued. */
  ghost predicate Exposed(s: Rcu, a: Cpu, f: Callback, r: Cpu) {
    && a in s.local && s.local[a].pc.Running? && a !in s.reading && f in s.local[a].waiting && s.local[a].grace <= s.grace
    && f in s.owed && r in s.owed[f] && r != a && (s.local[a].grace == s.grace && s.active ==> r !in s.ack)
  }

  /** The period f waits for is over, or only CPU a is left to acknowledge it. */
  ghost predicate NearlyOver(s: Rcu, a: Cpu) {
    a in s.local && (s.local[a].grace < s.grace || !s.active || s.ack == {a})
  }

  lemma StillExposed(s: Rcu, t: Rcu, a: Cpu, f: Callback, r: Cpu, d: Cpu)
    requires Exposed(s, a, f, r) && Acked(s, t, d) && s.active && d in s.ack && d != a && d != r
    ensures Exposed(t, a, f, r)
  {}

  /** f is about to run on CPU a although a read section open when it was queued is not over. */
  ghost predicate TooEarly(s: Rcu, a: Cpu, f: Callback) {
    a in s.local && f in s.local[a].ready && f in s.owed && s.owed[f] != {}
  }

  /** The same, with the CPU in that read section. */
  ghost predicate EarlyFor(s: Rcu, a: Cpu, f: Callback, r: Cpu) {
    a in s.local && f in s.local[a].ready && f in s.owed && r in s.owed[f]
  }

  lemma EarlyIs(s: Rcu, a: Cpu, f: Callback, r: Cpu)
    requires EarlyFor(s, a, f, r)
    ensures TooEarly(s, a, f)
  {}

  /** Then the next report of a makes f ready. */
  lemma RunsNow(s: Rcu, a: Cpu, f: Callback, r: Cpu) returns (run: seq<Action>)
    requires Inv(s) && Exposed(s, a, f, r) && NearlyOver(s, a)
    ensures Possible(s, run) && EarlyFor(After(s, run), a, f, r)
  {
    hide Possible, After, LocalOk, Unique;
    var s1 := Apply(s, Check(a));
    assert s1.local[a].pc == Checked(true);
    var s2 := Apply(s1, Invoke(a));
    var s3 := Apply(s2, Advance(a));
    assert EarlyFor(s3, a, f, r);
    hide Enabled, Apply, EarlyFor;
    One(s, Check(a));
    One(s1, Invoke(a));
    One(s2, Advance(a));
    Then(s, [Check(a)], [Invoke(a)]);
    Then(s, [Check(a)] + [Invoke(a)], [Advance(a)]);
    run := [Check(a)] + [Invoke(a)] + [Advance(a)];
  }

  lemma {:induction false} RunsEarly(s: Rcu, a: Cpu, f: Callback, r: Cpu) returns (run: seq<Action>)
    requires Inv(s) && Exposed(s, a, f, r) && (NearlyOver(s, a) || s.ack != {})
    ensures Possible(s, run) && EarlyFor(After(s, run), a, f, r)
    decreases |s.ack|
  {
    hide Possible, After, LocalOk, Unique, Enabled, Apply, EarlyFor;
    if NearlyOver(s, a) {
      run := RunsNow(s, a, f, r);
    } else {
      var d :| d in s.ack && d != a;
      run := Quiesce(s, d);
      var t := After(s, run);
      StillExposed(s, t, a, f, r, d);
      var rest := RunsEarly(t, a, f, r);
      Then(s, run, rest);
      run := run + rest;
    }
  }

  /** The next step of CPU a tags f, which has just started to wait. */
  ghost predicate Tags(s: Rcu, a: Cpu, f: Callback) {
    Enabled(s, Tag(a)) && f in s.local[a].waiting && f in s.owed
  }

  lemma TaggedExposed(s: Rcu, a: Cpu, f: Callback, r: Cpu)
    requires Inv(s) && Tags(s, a, f) && s.local[a].pc.wasActive && r in s.owed[f]
    requires (s.active ==> r !in s.ack && s.ack != {})
    ensures var t := Apply(s, Tag(a));
      && Enabled(t, InvokeAgain(a)) && Enabled(Apply(t, InvokeAgain(a)), Start(a, {}))
      && var u := Apply(Apply(t, InvokeAgain(a)), Start(a, {}));
      Exposed(u, a, f, r) && (NearlyOver(u, a) || u.ack != {})
  {
    hide LocalOk, Unique, Late;
  }

  /** From a late tag a run leads to the callback running too early. */
  lemma LateRunsEarly(s: Rcu, a: Cpu, f: Callback, r: Cpu, t: Rcu) returns (run: seq<Action>)
    requires Inv(s) && Tags(s, a, f) && s.local[a].pc.wasActive && r in s.owed[f]
    requires (s.active ==> r !in s.ack && s.ack != {})
    requires t == Apply(s, Tag(a))
    ensures Possible(t, run) && EarlyFor(After(t, run), a, f, r)
  {
    TaggedExposed(s, a, f, r);
    hide Possible, After, Inv, Enabled, Apply, EarlyFor, Tags, Exposed, NearlyOver;
    var t1 := Apply(t, InvokeAgain(a));
    var t2 := Apply(t1, Start(a, {}));
    Known(s, a, f);
    StepInv(s, Tag(a));
    StepInv(t, InvokeAgain(a));
    StepInv(t1, Start(a, {}));
    var rest := RunsEarly(t2, a, f, r);
    One(t, InvokeAgain(a));
    One(t1, Start(a, {}));
    Then(t, [InvokeAgain(a)], [Start(a, {})]);
    Then(t, [InvokeAgain(a)] + [Start(a, {})], rest);
    run := [InvokeAgain(a)] + [Start(a, {})] + rest;
  }

  // ---- and those that do not --------------------------------------------------------------------------

  /** f has left its batch, with a grace period that covers it. */
  ghost predicate Covered(s: Rcu, f: Callback) {
    && f in s.owed && f !in s.rushed
    && forall c :: c in s.local ==> f !in s.local[c].batch && (s.local[c].pc.Tagging? ==> f !in s.local[c].waiting)
  }

  lemma CoveredStep(s: Rcu, a: Action, f: Callback)
    requires Covered(s, f) && Enabled(s, a)
    ensures Covered(Apply(s, a), f)
  {}

  lemma {:induction false} CoveredRun(s: Rcu, run: seq<Action>, f: Callback)
    requires Covered(s, f) && Possible(s, run)
    ensures Covered(After(s, run), f)
    decreases |run|
  {
    hide Covered, Enabled, Apply;
    if run == [] {
    } else {
      CoveredStep(s, run[0], f);
      CoveredRun(Apply(s, run[0]), run[1..], f);
    }
  }

  lemma CoveredSafe(s: Rcu, a: Cpu, f: Callback)
    requires Inv(s) && Covered(s, f)
    ensures !TooEarly(s, a, f)
  {
    if a in s.local { assert LocalOk(s, s.local[a]); }
  }

  lemma TaggedCovered(s: Rcu, a: Cpu, f: Callback)
    requires Inv(s) && Tags(s, a, f) && f !in s.rushed && (s.local[a].pc.wasActive ==> Covers(s, s.owed[f]))
    ensures Covered(Apply(s, Tag(a)), f)
  {
    assert LocalOk(s, s.local[a]);
    OnePlace(s.local[a], f);
    forall c | c in s.local && c != a ensures f !in s.local[c].batch {
      assert LocalOk(s, s.local[c]);
      InBatch(s.local[c], f);
    }
  }

  lemma InBatch(l: Local, f: Callback)
    requires l.called == l.done + l.ready + l.waiting + l.batch
    ensures f in l.batch || f in l.waiting ==> f in l.called
  {}

  /** A waiting callback is in no other list of its CPU. */
  lemma OnePlace(l: Local, f: Callback)
    requires l.called == l.done + l.ready + l.waiting + l.batch && Distinct(l.called) && f in l.waiting
    ensures f !in l.batch && f !in l.ready && f in l.called
  {
    var i :| 0 <= i < |l.waiting| && l.waiting[i] == f;
    var k := |l.done| + |l.ready|;
    assert l.called[k + i] == f;
    forall j | 0 <= j < |l.batch| ensures l.batch[j] != f { assert l.called[k + |l.waiting| + j] == l.batch[j]; }
    forall j | 0 <= j < |l.ready| ensures l.ready[j] != f { assert l.called[|l.done| + j] == l.ready[j]; }
  }

  // ---- and those that never run -----------------------------------------------------------------------

  /** f waits on CPU a for a period that nobody will acknowledge. */
  ghost predicate Shut(s: Rcu, a: Cpu, f: Callback) {
    && s.active && s.ack == {} && a in s.local
    && var l := s.local[a];
    && f in l.waiting && f !in l.ready && l.grace >= s.grace && !l.pc.Tagging?
    && (l.pc.Checked? || l.pc.Invoked? ==> !l.pc.wake)
  }

  lemma ShutStep(s: Rcu, b: Action, a: Cpu, f: Callback)
    requires Shut(s, a, f) && Enabled(s, b)
    ensures Shut(Apply(s, b), a, f)
  {
    hide Late;
  }

  lemma {:induction false} ShutRun(s: Rcu, run: seq<Action>, a: Cpu, f: Callback)
    requires Shut(s, a, f) && Possible(s, run)
    ensures Shut(After(s, run), a, f)
    decreases |run|
  {
    hide Shut, Enabled, Apply;
    if run == [] {
    } else {
      ShutStep(s, run[0], a, f);
      ShutRun(Apply(s, run[0]), run[1..], a, f);
    }
  }

  lemma TaggedShut(s: Rcu, a: Cpu, f: Callback)
    requires Inv(s) && Tags(s, a, f) && s.active && s.ack == {}
    ensures Shut(Apply(s, Tag(a)), a, f)
  {
    hide Late;
    assert LocalOk(s, s.local[a]);
    OnePlace(s.local[a], f);
  }

  // ---- one reader at a time -----------------------------------------------------------------------------

  /** f waits on CPU a for the period under way, which CPU r has yet to acknowledge; or r's read section is over. */
  ghost predicate Held(s: Rcu, a: Cpu, f: Callback, r: Cpu) {
    && f in s.owed && a in s.local
    && (r in s.owed[f] ==>
      && s.active && r in s.ack
      && var l := s.local[a];
      && f in l.waiting && f !in l.ready && l.grace == s.grace && !l.pc.Tagging?
      && (l.pc.Checked? || l.pc.Invoked? ==> !l.pc.wake))
  }

  lemma HeldStep(s: Rcu, b: Action, a: Cpu, f: Callback, r: Cpu)
    requires Inv(s) && Held(s, a, f, r) && Enabled(s, b)
    ensures Held(Apply(s, b), a, f, r)
  {
    hide Late, LocalOk, Unique;
    var t := Apply(s, b);
    assert f in t.owed && t.owed[f] <= s.owed[f] && s.owed[f] <= s.reading;
    if r in t.owed[f] {
      match b
      case Check(c) => assert c != r && r in t.ack && t.active;
      case _ => assert t.active && t.ack == s.ack && t.grace == s.grace;
    }
  }

  lemma TaggedHeld(s: Rcu, a: Cpu, f: Callback, r: Cpu)
    requires Inv(s) && Tags(s, a, f) && s.local[a].pc.wasActive && s.active && r in s.ack
    ensures Held(Apply(s, Tag(a)), a, f, r)
  {
    hide Late;
    assert LocalOk(s, s.local[a]);
    OnePlace(s.local[a], f);
  }

  /** f does not run on any CPU while r's read section lasts. */
  ghost predicate Spared(s: Rcu, a: Cpu, f: Callback, r: Cpu) { Covered(s, f) || Shut(s, a, f) || Held(s, a, f, r) }

  lemma SparedStep(s: Rcu, b: Action, a: Cpu, f: Callback, r: Cpu)
    requires Inv(s) && Spared(s, a, f, r) && Enabled(s, b)
    ensures Spared(Apply(s, b), a, f, r)
  {
    hide Covered, Shut, Held, Inv, Enabled, Apply;
    if Covered(s, f) { CoveredStep(s, b, f); }
    if Shut(s, a, f) { ShutStep(s, b, a, f); }
    if Held(s, a, f, r) { HeldStep(s, b, a, f, r); }
  }

  lemma SparedReady(s: Rcu, a: Cpu, f: Callback, r: Cpu, c: Cpu)
    requires Inv(s) && Spared(s, a, f, r) && c in s.local && f in s.local[c].ready
    ensures f in s.owed && r !in s.owed[f]
  {
    assert LocalOk(s, s.local[c]);
    ReadyCalled(s.local[c], f);
    if a in s.local && f in s.local[a].waiting {
      assert LocalOk(s, s.local[a]);
      InBatch(s.local[a], f);
    }
  }

  lemma TaggedSpared(s: Rcu, a: Cpu, f: Callback, r: Cpu)
    requires Inv(s) && Tags(s, a, f) && f !in s.rushed
    requires !s.local[a].pc.wasActive || (s.active && (r in s.ack || s.ack == {}))
    ensures Spared(Apply(s, Tag(a)), a, f, r)
  {
    hide Inv, Covered, Shut, Held, Apply, Enabled;
    Known(s, a, f);
    if !s.local[a].pc.wasActive { TaggedCovered(s, a, f); }
    else if s.ack == {} { TaggedShut(s, a, f); }
    else { TaggedHeld(s, a, f, r); }
  }

  /** The promise to a callback, that it does not run before the read sections open when it was queued are over, is kept
      in every continuation if and only if, as it is tagged, no period had been found active, or all of those sections
      are over or on CPUs that have yet to acknowledge the period under way, or that period will never end. */
  lemma GraceExact(s: Rcu, a: Cpu, f: Callback, t: Rcu)
    requires Inv(s) && Tags(s, a, f) && f !in s.rushed && t == Apply(s, Tag(a))
    ensures (forall run :: Possible(t, run) ==> !TooEarly(After(t, run), a, f)) <==>
      (!s.local[a].pc.wasActive || Covers(s, s.owed[f]) || (s.active && s.ack == {}))
  {
    hide Inv, Enabled, Apply, Possible, After, TooEarly, Tags, Covered, Shut;
    Known(s, a, f);
    StepInv(s, Tag(a));
    if s.active && s.ack == {} {
      TaggedShut(s, a, f);
      forall run | Possible(t, run) ensures !TooEarly(After(t, run), a, f) {
        ShutRun(t, run, a, f);
        ShutSafe(After(t, run), a, f);
      }
    } else if !s.local[a].pc.wasActive || Covers(s, s.owed[f]) {
      TaggedCovered(s, a, f);
      forall run | Possible(t, run) ensures !TooEarly(After(t, run), a, f) {
        RunInv(t, run);
        CoveredRun(t, run, f);
        CoveredSafe(After(t, run), a, f);
      }
    } else {
      var r :| r in s.owed[f] && (s.active ==> r !in s.ack);
      var run := LateRunsEarly(s, a, f, r, t);
      EarlyIs(After(t, run), a, f, r);
    }
  }

  lemma ShutSafe(s: Rcu, a: Cpu, f: Callback)
    requires Shut(s, a, f)
    ensures !TooEarly(s, a, f)
  {}

  lemma Known(s: Rcu, a: Cpu, f: Callback)
    requires Tags(s, a, f)
    ensures f in s.owed && Enabled(s, Tag(a)) && a in s.local && s.local[a].pc.Tagging?
  {}

  // ---- such a case is reached -------------------------------------------------------------------------

  lemma Extend(s: Rcu, run: seq<Action>, a: Action)
    requires Possible(s, run) && Enabled(After(s, run), a)
    ensures Possible(s, run + [a]) && After(s, run + [a]) == Apply(After(s, run), a)
  {
    hide Enabled, Apply;
    One(After(s, run), a);
    Then(s, run, [a]);
  }

  /** Three CPUs; CPU 2 has done nothing yet, and a grace period waits for the given CPUs. */
  ghost predicate Waits(s: Rcu, ack: set<Cpu>) {
    && s.cpus == {0, 1, 2} == s.local.Keys && s.active && s.ack == ack && s.reading == {}
    && s.local[1] == Blank() && s.local[2] == Blank() && 11 !in s.owed && 11 !in s.rushed
  }

  /** CPU 0 has queued a callback and is about to begin a grace period for it. */
  ghost predicate Ready(s: Rcu, cpus: set<Cpu>) {
    && s.cpus == cpus == s.local.Keys && 0 in cpus && !s.active && s.grace == 0 && s.reading == {}
    && s.owed == map[10 := {}] && s.rushed == {} && s.local[0] == Local(1, [], [10], [], Finished, [10], [])
    && forall c :: c in cpus && c != 0 ==> s.local[c] == Blank()
  }

  lemma FirstBatch(cpus: set<Cpu>) returns (run: seq<Action>)
    requires 0 in cpus
    ensures Possible(Initial(cpus), run) && Ready(After(Initial(cpus), run), cpus)
  {
    hide Possible, After, Inv;
    var s0 := Initial(cpus);
    run := [];
    Nothing(s0);
    Extend(s0, run, Call(0, 10));
    run := run + [Call(0, 10)];
    Extend(s0, run, Check(0));
    run := run + [Check(0)];
    Extend(s0, run, Invoke(0));
    run := run + [Invoke(0)];
    assert After(s0, run).local[0] == Local(0, [10], [], [], Invoked(false), [10], []);
    Extend(s0, run, Advance(0));
    run := run + [Advance(0)];
    Extend(s0, run, Tag(0));
    run := run + [Tag(0)];
    assert After(s0, run).local[0] == Local(1, [], [10], [], Advanced, [10], []);
    Extend(s0, run, InvokeAgain(0));
    run := run + [InvokeAgain(0)];
  }

  /** CPU 0 begins a grace period. */
  lemma FirstGrace() returns (run: seq<Action>)
    ensures Possible(Initial({0, 1, 2}), run) && Waits(After(Initial({0, 1, 2}), run), {0, 1, 2})
  {
    hide Possible, After, Inv;
    run := FirstBatch({0, 1, 2});
    Extend(Initial({0, 1, 2}), run, Start(0, {}));
    run := run + [Start(0, {})];
  }

  /** CPU 1 reports. */
  lemma Passes(s: Rcu) returns (run: seq<Action>)
    requires Waits(s, {0, 1, 2})
    ensures Possible(s, run) && Waits(After(s, run), {0, 2})
  {
    hide Possible, After, Inv;
    run := [];
    Nothing(s);
    Extend(s, run, Check(1));
    run := run + [Check(1)];
    assert s.ack - {1} == {0, 2} && 0 in s.ack - {1};
    Extend(s, run, Invoke(1));
    run := run + [Invoke(1)];
    Extend(s, run, Advance(1));
    run := run + [Advance(1)];
    Extend(s, run, InvokeAgain(1));
    run := run + [InvokeAgain(1)];
    Extend(s, run, Start(1, {}));
    run := run + [Start(1, {})];
  }

  /** CPU 1 enters a read section, CPU 2 queues a callback and reports. */
  lemma Queues(s: Rcu) returns (run: seq<Action>)
    requires Waits(s, {0, 2})
    ensures Possible(s, run)
    ensures var t := After(s, run);
      Tags(t, 2, 11) && t.local[2].pc.wasActive && t.active && t.ack == {0} && t.owed[11] == {1} && 11 !in t.rushed
  {
    hide Possible, After, Inv;
    run := [];
    Nothing(s);
    Extend(s, run, BeginRead(1));
    run := run + [BeginRead(1)];
    Extend(s, run, Call(2, 11));
    run := run + [Call(2, 11)];
    Extend(s, run, Check(2));
    run := run + [Check(2)];
    assert s.ack - {2} == {0} && 0 in s.ack - {2};
    Extend(s, run, Invoke(2));
    run := run + [Invoke(2)];
    Extend(s, run, Advance(2));
    run := run + [Advance(2)];
  }

  /** From the start, a run leads to a callback that is set to wait for a grace period its reader has passed, and from
      there to that callback running while the reader is still in its section. */
  lemma PromiseBroken() returns (run: seq<Action>)
    ensures Possible(Initial({0, 1, 2}), run) && TooEarly(After(Initial({0, 1, 2}), run), 2, 11)
  {
    hide Possible, After, Waits, TooEarly, EarlyFor, Inv, Enabled, Apply;
    var s0 := Initial({0, 1, 2});
    run := FirstGrace();
    var more := Passes(After(s0, run));
    Then(s0, run, more);
    run := run + more;
    more := Queues(After(s0, run));
    Then(s0, run, more);
    run := run + more;
    var s := After(s0, run);
    InitialInv({0, 1, 2});
    RunInv(s0, run);
    Extend(s0, run, Tag(2));
    run := run + [Tag(2)];
    more := LateRunsEarly(s, 2, 11, 1, After(s0, run));
    Then(s0, run, more);
    run := run + more;
    EarlyIs(After(s0, run), 2, 11, 1);
  }

  /** A single CPU that is idle as it begins a period leaves it without anybody to acknowledge, with a callback
      waiting. */
  lemma StuckReached() returns (run: seq<Action>)
    ensures Possible(Initial({0}), run)
    ensures var s := After(Initial({0}), run); Inv(s) && Shut(s, 0, 10) && s.owed == map[10 := {}]
  {
    hide Possible, After, Inv;
    var s0 := Initial({0});
    InitialInv({0});
    run := FirstBatch({0});
    Extend(s0, run, Start(0, {0}));
    run := run + [Start(0, {0})];
    RunInv(s0, run);
  }

  /** That callback never becomes ready, although nobody reads. */
  lemma NeverReady(run: seq<Action>, more: seq<Action>)
    requires Possible(Initial({0}), run) && Shut(After(Initial({0}), run), 0, 10)
    requires Possible(After(Initial({0}), run), more)
    ensures var t := After(After(Initial({0}), run), more);
      0 in t.local && 10 in t.local[0].waiting && 10 !in t.local[0].ready
  {
    ShutRun(After(Initial({0}), run), more, 0, 10);
  }
}
