/** The cancellation cell of an I/O request packet (include/kernel/io/irp.h, src/kernel/io/irp.c): callers that
    install callbacks by compare-and-exchange race with callers that cancel by exchange. */
module CancelCell {
  import opened Common

  datatype Value = Null | Handler(id: nat) | Cancelled

  /** A call under way: irp_set_cancel between load and exchange (on behalf of irp_complete or not), or a canceller
      that found no callback and has yet to store NULL again. */
  datatype Call = Setting(cancel: Value, expected: Value, completing: bool) | Restoring

  /** value is the shared cell. installed and returned count the callbacks put in and handed back; taken counts the
      cancellations that got a callback, completed the callers entitled to complete the packet, and abandoned the
      completions given up although no canceller had got a callback. */
  datatype Cell = Cell(value: Value, calls: map<nat, Call>, installed: multiset<nat>, returned: multiset<nat>,
                       taken: nat, completed: nat, abandoned: nat)

  datatype Action =
    | BeginSet(caller: nat, cancel: Value, completing: bool)
    | Exchange(caller: nat)   // the compare-and-exchange of irp_set_cancel
    | Fail(caller: nat)       // its spurious failure
    | Cancel(caller: nat)     // the exchange with the sentinel, of irp_cancel and of an expired timeout
    | Restore(caller: nat)

  ghost predicate Enabled(c: Cell, a: Action) {
    match a
    case BeginSet(t, v, b) => t !in c.calls && v != Cancelled && (b ==> v == Null)
    case Exchange(t) => t in c.calls && c.calls[t].Setting?
    case Fail(t) => t in c.calls && c.calls[t].Setting?
    case Cancel(t) => t !in c.calls
    case Restore(t) => t in c.calls && c.calls[t].Restoring?
  }

  ghost function Held(v: Value): multiset<nat> { if v.Handler? then multiset{v.id} else multiset{} }

  ghost function Count(b: bool): nat { if b then 1 else 0 }

  /** irp_set_cancel sees the sentinel and returns it. */
  ghost function GiveUp(c: Cell, t: nat, completing: bool): Cell {
    var abandoned := c.abandoned + Count(completing && c.taken == 0);
    Cell(c.value, c.calls - {t}, c.installed, c.returned, c.taken, c.completed, abandoned)
  }

  /** irp_set_cancel goes round with the value just seen. */
  ghost function Reload(c: Cell, t: nat, cancel: Value, completing: bool): Cell {
    if c.value == Cancelled then GiveUp(c, t, completing)
    else
      var calls := c.calls[t := Setting(cancel, c.value, completing)];
      Cell(c.value, calls, c.installed, c.returned, c.taken, c.completed, c.abandoned)
  }

  ghost function Apply(c: Cell, a: Action): Cell
    requires Enabled(c, a)
  {
    match a
    case BeginSet(t, v, b) => Reload(c, t, v, b)
    case Exchange(t) =>
      var Setting(v, e, b) := c.calls[t];
      if c.value == e
      then Cell(v, c.calls - {t}, c.installed + Held(v), c.returned + Held(e), c.taken, c.completed + Count(b), c.abandoned)
      else Reload(c, t, v, b)
    case Fail(t) => Reload(c, t, c.calls[t].cancel, c.calls[t].completing)
    case Cancel(t) =>
      var calls := if c.value == Null then c.calls[t := Restoring] else c.calls;
      var got := Count(c.value.Handler?);
      Cell(Cancelled, calls, c.installed, c.returned + Held(c.value), c.taken + got, c.completed + got, c.abandoned)
    case Restore(t) => Cell(Null, c.calls - {t}, c.installed, c.returned, c.taken, c.completed, c.abandoned)
  }

  /** A canceller that found NULL has not yet put it back. */
  ghost predicate Pending(c: Cell) { exists t :: t in c.calls && c.calls[t].Restoring? }

  ghost predicate Inv(c: Cell) {
    && c.installed == c.returned + Held(c.value)
    && c.taken <= 1
    && (c.taken == 1 ==> c.value == Cancelled && !Pending(c))
    && (c.value == Cancelled <==> c.taken == 1 || Pending(c))
    && (forall t, u :: t in c.calls && u in c.calls && c.calls[t].Restoring? && c.calls[u].Restoring? ==> t == u)
    && (forall t :: t in c.calls && c.calls[t].Setting? ==>
      c.calls[t].cancel != Cancelled && c.calls[t].expected != Cancelled)
  }

  function Initial(): Cell { Cell(Null, map[], multiset{}, multiset{}, 0, 0, 0) }

  lemma InitialInv()
    ensures Inv(Initial())
  {}

  /** Calls other than a restoring one come and go without touching the pending store. */
  lemma PendingSame(c: Cell, c': Cell, t: nat)
    requires t in c.calls ==> c.calls[t].Setting?
    requires t in c'.calls ==> c'.calls[t].Setting?
    requires forall u :: u != t ==> (u in c.calls <==> u in c'.calls) && (u in c.calls ==> c.calls[u] == c'.calls[u])
    ensures Pending(c) <==> Pending(c')
  {
    if Pending(c) { var u :| u in c.calls && c.calls[u].Restoring?; assert u in c'.calls && c'.calls[u].Restoring?; }
    if Pending(c') { var u :| u in c'.calls && c'.calls[u].Restoring?; assert u in c.calls && c.calls[u].Restoring?; }
  }

  lemma ReloadInv(c: Cell, t: nat, v: Value, b: bool)
    requires Inv(c) && v != Cancelled && (t in c.calls ==> c.calls[t].Setting?)
    ensures Inv(Reload(c, t, v, b))
  {
    hide Pending, Held;
    PendingSame(c, Reload(c, t, v, b), t);
  }

  lemma ExchangeInv(c: Cell, t: nat)
    requires Inv(c) && Enabled(c, Exchange(t))
    ensures Inv(Apply(c, Exchange(t)))
  {
    hide Pending, Reload;
    if c.value == c.calls[t].expected {
      PendingSame(c, Apply(c, Exchange(t)), t);
    } else {
      ReloadInv(c, t, c.calls[t].cancel, c.calls[t].completing);
    }
  }

  lemma CancelInv(c: Cell, t: nat)
    requires Inv(c) && Enabled(c, Cancel(t))
    ensures Inv(Apply(c, Cancel(t)))
  {
    var d := Apply(c, Cancel(t));
    if c.value == Null { assert t in d.calls && d.calls[t].Restoring?; }
  }

  lemma RestoreInv(c: Cell, t: nat)
    requires Inv(c) && Enabled(c, Restore(t))
    ensures Inv(Apply(c, Restore(t)))
  {}

  lemma StepInv(c: Cell, a: Action)
    requires Inv(c) && Enabled(c, a)
    ensures Inv(Apply(c, a))
  {
    hide Inv, Reload;
    match a
    case BeginSet(t, v, b) => ReloadInv(c, t, v, b);
    case Exchange(t) => ExchangeInv(c, t);
    case Fail(t) =>
      SettingValue(c, t);
      ReloadInv(c, t, c.calls[t].cancel, c.calls[t].completing);
    case Cancel(t) => CancelInv(c, t);
    case Restore(t) => RestoreInv(c, t);
  }

  lemma SettingValue(c: Cell, t: nat)
    requires Inv(c) && t in c.calls && c.calls[t].Setting?
    ensures c.calls[t].cancel != Cancelled
  {}

  // ---- whole runs -----------------------------------------------------------------------------------

  ghost predicate Possible(c: Cell, run: seq<Action>)
    decreases |run|
  {
    run == [] || (Enabled(c, run[0]) && Possible(Apply(c, run[0]), run[1..]))
  }

  ghost function After(c: Cell, run: seq<Action>): Cell
    requires Possible(c, run)
    decreases |run|
  {
    if run == [] then c else After(Apply(c, run[0]), run[1..])
  }

  lemma {:induction false} RunInv(c: Cell, run: seq<Action>)
    requires Inv(c) && Possible(c, run)
    ensures Inv(After(c, run))
    decreases |run|
  {
    hide Inv, Enabled, Apply;
    if run == [] {
    } else {
      StepInv(c, run[0]);
      RunInv(Apply(c, run[0]), run[1..]);
    }
  }

  lemma {:induction false} Snoc(c: Cell, run: seq<Action>, a: Action)
    ensures Possible(c, run + [a]) <==> Possible(c, run) && Enabled(After(c, run), a)
    ensures Possible(c, run + [a]) ==> After(c, run + [a]) == Apply(After(c, run), a)
    decreases |run|
  {
    hide Enabled, Apply;
    if run == [] {
      assert run + [a] == [a];
    } else {
      assert (run + [a])[1..] == run[1..] + [a] && (run + [a])[0] == run[0];
      if Enabled(c, run[0]) { Snoc(Apply(c, run[0]), run[1..], a); }
    }
  }

  // ---- what the callers passed and saw, read off the run ----------------------------------------------------

  /** The shared cell after a run: all that the callers have in common. */
  ghost function CellAfter(run: seq<Action>): Value
    requires Possible(Initial(), run)
  {
    After(Initial(), run).value
  }

  /** The last irp_set_cancel that caller t began. */
  function Begun(run: seq<Action>, t: nat): (r: Option<Action>)
    ensures r.Some? ==> r.value.BeginSet? && r.value.caller == t
  {
    if run == [] then None
    else
      var a := run[|run| - 1];
      if a.BeginSet? && a.caller == t then Some(a) else Begun(run[..|run| - 1], t)
  }

  /** What the cell held as caller t last looked at it. */
  ghost function Seen(run: seq<Action>, t: nat): Value
    requires Possible(Initial(), run)
  {
    if run == [] then Null
    else
      Shorter(run);
      if run[|run| - 1].caller == t then CellAfter(run[..|run| - 1]) else Seen(run[..|run| - 1], t)
  }

  lemma Shorter(run: seq<Action>)
    requires Possible(Initial(), run) && run != []
    ensures Possible(Initial(), run[..|run| - 1])
  {
    Snoc(Initial(), run[..|run| - 1], run[|run| - 1]);
    assert run == run[..|run| - 1] + [run[|run| - 1]];
  }

  /** The last step is an exchange that finds in the cell what its caller saw there before. */
  ghost predicate Wins(run: seq<Action>, a: Action)
    requires Possible(Initial(), run)
  {
    a.Exchange? && CellAfter(run) == Seen(run, a.caller)
  }

  /** The callbacks passed by the callers whose exchange succeeded. */
  ghost function Put(run: seq<Action>): multiset<nat>
    requires Possible(Initial(), run)
  {
    if run == [] then multiset{}
    else
      Shorter(run);
      var before, a := run[..|run| - 1], run[|run| - 1];
      Put(before) + (if Wins(before, a) && Begun(before, a.caller).Some? then Held(Begun(before, a.caller).value.cancel)
                     else multiset{})
  }

  /** A step leaves the other calls alone, and its own caller goes on with what it passed and what it just saw. */
  lemma StepCalls(c: Cell, a: Action, u: nat)
    requires Enabled(c, a) && u in Apply(c, a).calls && Apply(c, a).calls[u].Setting?
    ensures var call := Apply(c, a).calls[u];
      if u != a.caller then u in c.calls && call == c.calls[u]
      else if a.BeginSet? then call == Setting(a.cancel, c.value, a.completing)
      else u in c.calls && c.calls[u].Setting? && call == c.calls[u].(expected := c.value)
  {}

  /** In every run each call under way has the value and the purpose its caller passed, and expects what the caller
      last saw. */
  lemma {:induction false} HoldsPassed(run: seq<Action>, t: nat)
    requires Possible(Initial(), run)
    ensures var c := After(Initial(), run);
      t in c.calls && c.calls[t].Setting? ==>
        Begun(run, t) == Some(BeginSet(t, c.calls[t].cancel, c.calls[t].completing)) && c.calls[t].expected == Seen(run, t)
    decreases |run|
  {
    hide Possible, After, Enabled, Apply;
    if run == [] {
      Nothing(Initial());
    } else {
      var before, a := run[..|run| - 1], run[|run| - 1];
      assert run == before + [a];
      Snoc(Initial(), before, a);
      HoldsPassed(before, t);
      var c := After(Initial(), before);
      if t in Apply(c, a).calls && Apply(c, a).calls[t].Setting? { StepCalls(c, a, t); }
    }
  }

  lemma StepInstalled(c: Cell, a: Action)
    requires Enabled(c, a)
    ensures Apply(c, a).installed == c.installed +
      (if a.Exchange? && c.value == c.calls[a.caller].expected then Held(c.calls[a.caller].cancel) else multiset{})
  {
    hide Held;
  }

  lemma {:induction false} InstalledPut(run: seq<Action>)
    requires Possible(Initial(), run)
    ensures After(Initial(), run).installed == Put(run)
    decreases |run|
  {
    hide Possible, After, Apply, Held, Begun, Seen;
    if run == [] {
      Nothing(Initial());
    } else {
      var before, a := run[..|run| - 1], run[|run| - 1];
      assert run == before + [a];
      Snoc(Initial(), before, a);
      InstalledPut(before);
      HoldsPassed(before, a.caller);
      StepInstalled(After(Initial(), before), a);
    }
  }

  /** In every interleaving the callbacks installed are those passed by the callers whose exchange succeeded, each is
      in the cell or has been handed back to exactly one caller, and at most one canceller ever gets a callback. */
  lemma Conserved(run: seq<Action>)
    requires Possible(Initial(), run)
    ensures var c := After(Initial(), run);
      c.installed == Put(run) && c.installed == c.returned + Held(c.value) && c.taken <= 1
  {
    hide Possible, After, Put;
    InitialInv();
    RunInv(Initial(), run);
    InstalledPut(run);
  }

  /** An exchange succeeds just when the cell holds what its caller last saw. Then the cell holds what the caller
      passed and the caller is handed what was in it; otherwise the cell stays as it is, and the caller returns just
      when it met the sentinel. */
  lemma ExchangeExact(run: seq<Action>, t: nat)
    requires Possible(Initial(), run + [Exchange(t)])
    ensures Possible(Initial(), run) && Begun(run, t).Some?
    ensures var c, d := After(Initial(), run), After(Initial(), run + [Exchange(t)]);
      if c.value == Seen(run, t) then
        && d.value == Begun(run, t).value.cancel && d.returned == c.returned + Held(c.value) && t !in d.calls
        && d.completed == c.completed + Count(Begun(run, t).value.completing)
      else
        && d.value == c.value && d.returned == c.returned && d.completed == c.completed
        && (t in d.calls <==> c.value != Cancelled)
  {
    hide Possible, After, Held, Begun, Seen;
    Snoc(Initial(), run, Exchange(t));
    HoldsPassed(run, t);
  }

  /** Once a canceller has got a callback the sentinel stays for good, and nothing is handed out any more. */
  lemma {:induction false} Sticky(c: Cell, run: seq<Action>)
    requires Inv(c) && c.taken == 1 && Possible(c, run)
    ensures var d := After(c, run);
      d.value == Cancelled && d.returned == c.returned && d.completed == c.completed && d.abandoned == c.abandoned
    decreases |run|
  {
    if run == [] {
    } else {
      var d := Apply(c, run[0]);
      StepInv(c, run[0]);
      assert d.taken == 1 && d.returned == c.returned && d.completed == c.completed && d.abandoned == c.abandoned;
      hide Inv, Apply, Enabled;
      Sticky(d, run[1..]);
    }
  }

  /** A step takes the sentinel out of the cell just when it is the store of a canceller that had found NULL. */
  lemma LeavesSentinel(c: Cell, a: Action)
    requires Inv(c) && Enabled(c, a) && c.value == Cancelled
    ensures Apply(c, a).value != Cancelled <==> a.Restore?
  {}

  /** A completion is given up with nobody to complete the packet in its place just when it meets the sentinel
      while such a store is pending. */
  lemma AbandonedExactly(c: Cell, a: Action)
    requires Inv(c) && Enabled(c, a)
    ensures Apply(c, a).abandoned > c.abandoned <==> Pending(c) && Completes(c, a)
  {}

  /** The step is a load of the cell on behalf of irp_complete. */
  ghost predicate Completes(c: Cell, a: Action)
    requires Enabled(c, a)
  {
    match a
    case BeginSet(_, _, b) => b
    case Exchange(t) => c.calls[t].completing
    case Fail(t) => c.calls[t].completing
    case _ => false
  }

  /** A cancellation that finds no callback makes a completion that meets it vanish: nobody completes the packet, and
      the cell is as if nothing had happened. */
  lemma LostCompletion(c: Cell, t: nat, u: nat)
    requires Inv(c) && c.value == Null && t !in c.calls && u !in c.calls && t != u
    ensures var run := [Cancel(t), BeginSet(u, Null, true), Restore(t)];
      && Possible(c, run)
      && After(c, run) == c.(abandoned := c.abandoned + 1)
  {
    hide Possible, After, Inv;
    var c1 := Apply(c, Cancel(t));
    var c2 := Apply(c1, BeginSet(u, Null, true));
    assert c.taken == 0 by { NotTaken(c); }
    assert c1.calls == c.calls[t := Restoring] && c2.calls == c1.calls;
    var c3 := Apply(c2, Restore(t));
    assert c3.calls == c.calls;
    assert c3 == c.(abandoned := c.abandoned + 1);
    hide Enabled, Apply;
    Nothing(c3);
    Prepend(c2, Restore(t), []);
    assert [Restore(t)] + [] == [Restore(t)];
    Prepend(c1, BeginSet(u, Null, true), [Restore(t)]);
    assert [BeginSet(u, Null, true)] + [Restore(t)] == [BeginSet(u, Null, true), Restore(t)];
    Prepend(c, Cancel(t), [BeginSet(u, Null, true), Restore(t)]);
    assert [Cancel(t)] + [BeginSet(u, Null, true), Restore(t)] == [Cancel(t), BeginSet(u, Null, true), Restore(t)];
  }

  lemma NotTaken(c: Cell)
    requires Inv(c) && c.value == Null
    ensures c.taken == 0
  {}

  lemma Nothing(c: Cell)
    ensures Possible(c, []) && After(c, []) == c
  {}

  lemma Prepend(c: Cell, a: Action, run: seq<Action>)
    requires Enabled(c, a) && Possible(Apply(c, a), run)
    ensures Possible(c, [a] + run) && After(c, [a] + run) == After(Apply(c, a), run)
  {
    hide Enabled, Apply;
    assert ([a] + run)[1..] == run;
  }

  // ---- the race between completion and cancellation ---------------------------------------------------

  /** The call is about to put a callback into the cell. */
  ghost predicate Installs(c: Call) { c.Setting? && c.cancel.Handler? }

  ghost predicate OnBehalf(c: Call) { c.Setting? && c.completing }

  /** No completion has been asked for yet: only a canceller can have completed the packet. */
  ghost predicate Undecided(c: Cell) {
    c.completed == c.taken && c.abandoned == 0 && forall u :: u in c.calls ==> !OnBehalf(c.calls[u])
  }

  /** The completing call t is under way, and no callback can be installed any more. */
  ghost predicate Deciding(c: Cell, t: nat) {
    && c.completed == c.taken && c.abandoned == 0 && t in c.calls && OnBehalf(c.calls[t])
    && forall u :: u in c.calls ==> !Installs(c.calls[u]) && (OnBehalf(c.calls[u]) ==> u == t)
  }

  /** The completing call has returned: somebody completes the packet or it is abandoned, and that is settled. */
  ghost predicate Decided(c: Cell) {
    && c.completed + c.abandoned == 1 && !c.value.Handler?
    && forall u :: u in c.calls ==> !Installs(c.calls[u]) && !OnBehalf(c.calls[u])
  }

  ghost predicate Ordinary(a: Action) { a.BeginSet? ==> !a.completing }

  lemma UndecidedStep(c: Cell, a: Action)
    requires Undecided(c) && Enabled(c, a) && Ordinary(a)
    ensures Undecided(Apply(c, a))
  {}

  lemma {:induction false} UndecidedRun(c: Cell, run: seq<Action>)
    requires Undecided(c) && Possible(c, run) && forall a :: a in run ==> Ordinary(a)
    ensures Undecided(After(c, run))
    decreases |run|
  {
    hide Undecided, Enabled, Apply;
    if run == [] {
    } else {
      UndecidedStep(c, run[0]);
      UndecidedRun(Apply(c, run[0]), run[1..]);
    }
  }

  lemma DecidingStep(c: Cell, a: Action, t: nat)
    requires Inv(c) && Deciding(c, t) && Enabled(c, a) && Ordinary(a) && (a.BeginSet? ==> a.cancel == Null)
    ensures Deciding(Apply(c, a), t) || Decided(Apply(c, a))
  {
    hide Pending, Held;
  }

  lemma DecidedStep(c: Cell, a: Action)
    requires Decided(c) && Enabled(c, a) && Ordinary(a) && (a.BeginSet? ==> a.cancel == Null)
    ensures Decided(Apply(c, a))
  {}

  lemma {:induction false} RaceRun(c: Cell, run: seq<Action>, t: nat)
    requires Inv(c) && (Deciding(c, t) || Decided(c)) && Possible(c, run)
    requires forall a :: a in run ==> Ordinary(a) && (a.BeginSet? ==> a.cancel == Null)
    ensures Deciding(After(c, run), t) || Decided(After(c, run))
    decreases |run|
  {
    hide Inv, Deciding, Decided, Enabled, Apply;
    if run == [] {
    } else {
      StepInv(c, run[0]);
      if Decided(c) { DecidedStep(c, run[0]); } else { DecidingStep(c, run[0], t); }
      RaceRun(Apply(c, run[0]), run[1..], t);
    }
  }

  lemma RaceBegins(c: Cell, t: nat)
    requires Inv(c) && Undecided(c) && Enabled(c, BeginSet(t, Null, true))
    requires forall u :: u in c.calls ==> !Installs(c.calls[u])
    ensures var d := Apply(c, BeginSet(t, Null, true)); Deciding(d, t) || Decided(d)
  {}

  /** A packet is completed once. Take any run with one irp_complete, by caller t, in which every irp_set_cancel that
      installs a callback has returned before it begins and none begins later, against any number of cancellers. Once
      the irp_complete has returned, either exactly one party completes the packet or the completion is abandoned, and
      at no time is it completed twice. */
  lemma CompletedOnce(before: seq<Action>, t: nat, during: seq<Action>)
    requires Possible(Initial(), before) && forall a :: a in before ==> Ordinary(a)
    requires Enabled(After(Initial(), before), BeginSet(t, Null, true))
    requires var c := After(Initial(), before);
      (forall u :: u in c.calls ==> !Installs(c.calls[u])) && Possible(Apply(c, BeginSet(t, Null, true)), during)
    requires forall a :: a in during ==> Ordinary(a) && (a.BeginSet? ==> a.cancel == Null)
    ensures var d := After(Apply(After(Initial(), before), BeginSet(t, Null, true)), during);
      && d.completed + d.abandoned <= 1
      && ((forall u :: u in d.calls ==> !OnBehalf(d.calls[u])) ==> d.completed + d.abandoned == 1)
  {
    hide Possible, After, Enabled, Apply;
    InitialInv();
    RunInv(Initial(), before);
    assert Undecided(Initial());
    UndecidedRun(Initial(), before);
    var c := After(Initial(), before);
    RaceBegins(c, t);
    StepInv(c, BeginSet(t, Null, true));
    var d := Apply(c, BeginSet(t, Null, true));
    RaceRun(d, during, t);
    RunInv(d, during);
  }

  /** With a callback installed after the completion, a canceller completes the packet a second time. */
  lemma LateInstaller(c: Cell)
    requires c.value == Null && c.calls == map[]
    ensures var run := [BeginSet(0, Null, true), Exchange(0), BeginSet(1, Handler(7), false), Exchange(1), Cancel(2)];
      Possible(c, run) && After(c, run).completed == c.completed + 2
  {
    hide Possible, After;
    var a1, a2, a3, a4, a5 :=
      BeginSet(0, Null, true), Exchange(0), BeginSet(1, Handler(7), false), Exchange(1), Cancel(2);
    var c1 := Apply(c, a1);
    var c2 := Apply(c1, a2);
    var c3 := Apply(c2, a3);
    var c4 := Apply(c3, a4);
    var c5 := Apply(c4, a5);
    assert c5.completed == c.completed + 2;
    hide Enabled, Apply;
    Nothing(c5);
    Prepend(c4, a5, []);
    assert [a5] + [] == [a5];
    Prepend(c3, a4, [a5]);
    assert [a4] + [a5] == [a4, a5];
    Prepend(c2, a3, [a4, a5]);
    assert [a3] + [a4, a5] == [a3, a4, a5];
    Prepend(c1, a2, [a3, a4, a5]);
    assert [a2] + [a3, a4, a5] == [a2, a3, a4, a5];
    Prepend(c, a1, [a2, a3, a4, a5]);
    assert [a1] + [a2, a3, a4, a5] == [a1, a2, a3, a4, a5];
  }

  // ---- exactly when ---------------------------------------------------------------------------------------

  /** No further completion, and no callback from a call that begins in this run. */
  ghost predicate Plain(run: seq<Action>) { forall a :: a in run ==> Ordinary(a) && (a.BeginSet? ==> a.cancel == Null) }

  ghost predicate Installer(c: Cell, u: nat) { u in c.calls && Installs(c.calls[u]) && !OnBehalf(c.calls[u]) }

  lemma PlainMore(c: Cell, a: Action, run: seq<Action>)
    requires Enabled(c, a) && Possible(Apply(c, a), run) && Plain(run) && !a.BeginSet?
    ensures Possible(c, [a] + run) && After(c, [a] + run) == After(Apply(c, a), run) && Plain([a] + run)
  {
    hide Enabled, Apply, Possible, After;
    Prepend(c, a, run);
  }

  /** An installer puts its callback in, and a canceller takes it. */
  lemma InstallTaken(c: Cell, u: nat, t: nat) returns (run: seq<Action>)
    requires c.value == Null && Installer(c, u) && t !in c.calls
    ensures Possible(c, run) && Plain(run)
    ensures After(c, run).completed == c.completed + 1 && After(c, run).abandoned == c.abandoned
    decreases c.calls[u].expected != Null
  {
    hide Possible, After, Plain;
    if c.calls[u].expected == Null {
      var d := Apply(c, Exchange(u));
      var e := Apply(d, Cancel(t));
      assert e.completed == c.completed + 1 && e.abandoned == c.abandoned;
      hide Enabled, Apply;
      Nothing(e);
      assert Plain([]) by { NoActions(); }
      PlainMore(d, Cancel(t), []);
      PlainMore(c, Exchange(u), [Cancel(t)] + []);
      run := [Exchange(u)] + ([Cancel(t)] + []);
    } else {
      var d := Apply(c, Exchange(u));
      var rest := InstallTaken(d, u, t);
      hide Enabled, Apply;
      PlainMore(c, Exchange(u), rest);
      run := [Exchange(u)] + rest;
    }
  }

  lemma NoActions()
    ensures Plain([])
  {}

  /** An installer under way as the completion begins makes a second party complete the packet. */
  lemma CompletedTwice(c: Cell, t: nat, u: nat) returns (run: seq<Action>)
    requires Inv(c) && Undecided(c) && Enabled(c, BeginSet(t, Null, true)) && c.taken == 0 && Installer(c, u)
    ensures Plain(run) && Possible(Apply(c, BeginSet(t, Null, true)), run)
    ensures var e := After(Apply(c, BeginSet(t, Null, true)), run); e.completed + e.abandoned == 2
  {
    hide Possible, After, Plain, Held;
    var d := Apply(c, BeginSet(t, Null, true));
    var a: Action;
    if c.value == Cancelled {
      var r :| r in c.calls && c.calls[r].Restoring?;
      a := Restore(r);
    } else {
      a := Exchange(t);
    }
    var e := Apply(d, a);
    assert e.value == Null && Installer(e, u) && t !in e.calls && e.completed + e.abandoned == 1;
    hide Inv, Enabled, Apply;
    var rest := InstallTaken(e, u, t);
    PlainMore(d, a, rest);
    run := [a] + rest;
  }

  /** As irp_complete begins on a packet not completed so far: in all continuations without a further completion or
      a callback that is yet to be passed in, the packet is completed or given up at most once, if and only if no
      callback is being installed or a canceller has got one already. */
  lemma OnceExactly(c: Cell, t: nat)
    requires Inv(c) && Undecided(c) && Enabled(c, BeginSet(t, Null, true))
    ensures var d := Apply(c, BeginSet(t, Null, true));
      (forall run :: Possible(d, run) && Plain(run) ==> After(d, run).completed + After(d, run).abandoned <= 1)
      <==> (forall u :: u in c.calls ==> !Installs(c.calls[u])) || c.taken == 1
  {
    var d := Apply(c, BeginSet(t, Null, true));
    StepInv(c, BeginSet(t, Null, true));
    if c.taken == 1 {
      assert d.taken == 1 && d.completed == 1 && d.abandoned == 0;
      hide Inv, Possible, After, Plain;
      forall run | Possible(d, run) && Plain(run) ensures After(d, run).completed + After(d, run).abandoned <= 1 {
        Sticky(d, run);
      }
    } else if forall u :: u in c.calls ==> !Installs(c.calls[u]) {
      RaceBegins(c, t);
      hide Possible, After, Enabled, Apply;
      forall run | Possible(d, run) && Plain(run) ensures After(d, run).completed + After(d, run).abandoned <= 1 {
        RaceRun(d, run, t);
        RunInv(d, run);
      }
    } else {
      var u :| u in c.calls && Installs(c.calls[u]);
      hide Possible, After, Plain;
      var run := CompletedTwice(c, t, u);
    }
  }
}
