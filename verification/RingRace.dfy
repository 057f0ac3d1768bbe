/** Several producers on one ring, as when completions are posted on two CPUs at once (src/kernel/io/ring.c). */
module RingRace {
  import opened Common
  import opened IoRing

  /** The shared ring, and for each producer where it stands in a push. */
  datatype Shared<T> = Shared(ring: Ring<T>, producers: map<nat, Producer<T>>)

  datatype Move<T> = By(producer: nat, action: Action<T>) | Consume(action: Action<T>)

  predicate Pushes<T>(a: Action<T>) { a.LoadOwnTail? || a.LoadHead? || a.Scribble? || a.WriteSlot? || a.StoreTail? }

  /** The ring as producer p sees it. */
  function Seen<T>(m: Shared<T>, p: nat): Ring<T>
    requires p in m.producers
  {
    m.ring.(producer := m.producers[p])
  }

  predicate Can<T>(m: Shared<T>, s: Move<T>) {
    match s
    case By(p, a) => Pushes(a) && p in m.producers && Enabled(Seen(m, p), a)
    case Consume(a) => !Pushes(a) && Enabled(m.ring, a)
  }

  function Do<T>(m: Shared<T>, s: Move<T>): Shared<T>
    requires Can(m, s)
  {
    match s
    case By(p, a) => var r := Apply(Seen(m, p), a); Shared(r.(producer := NoPush), m.producers[p := r.producer])
    case Consume(a) => Shared(Apply(m.ring, a), m.producers)
  }

  predicate Begins<T>(s: Move<T>) { s.By? && s.action.LoadOwnTail? }

  ghost predicate Busy<T>(m: Shared<T>, p: nat) { p in m.producers && !m.producers[p].NoPush? }

  ghost predicate AllIdle<T>(m: Shared<T>) { forall p :: !Busy(m, p) }

  /** The only producer inside a push, if any, sees a sound ring. */
  ghost predicate Sound<T>(m: Shared<T>, o: Option<nat>) {
    && m.ring.producer.NoPush?
    && match o
       case None => AllIdle(m) && Inv(m.ring)
       case Some(p) => Busy(m, p) && (forall q :: Busy(m, q) ==> q == p) && Inv(Seen(m, p))
  }

  /** An accepted item is no longer counted by the tail. */
  ghost predicate Lost<T>(m: Shared<T>) { m.ring.tail != Wrap(|m.ring.pushed|) }

  lemma SoundCounts<T>(m: Shared<T>, o: Option<nat>)
    requires Sound(m, o)
    ensures !Lost(m)
  {
    hide Wrap;
  }

  // ---- one producer at a time -------------------------------------------------------------------------

  lemma SoundStep<T>(m: Shared<T>, o: Option<nat>, s: Move<T>) returns (o': Option<nat>)
    requires Sound(m, o) && Can(m, s) && (Begins(s) ==> AllIdle(m))
    ensures Sound(Do(m, s), o')
  {
    hide Inv, Slot;
    var t := Do(m, s);
    match s
    case Consume(a) =>
      o' := o;
      assert forall q :: Busy(t, q) <==> Busy(m, q);
      assert t.ring.producer.NoPush?;
      if o.Some? {
        StepInv(Seen(m, o.value), a);
        assert Seen(t, o.value) == Apply(Seen(m, o.value), a);
      } else {
        StepInv(m.ring, a);
      }
    case By(p, a) =>
      Who(m, o, p, a);
      StepInv(Seen(m, p), a);
      o' := if t.producers[p].NoPush? then None else Some(p);
      assert Seen(t, p) == Apply(Seen(m, p), a);
      assert forall q :: q != p ==> (Busy(t, q) <==> Busy(m, q));
      assert Busy(t, p) <==> o'.Some?;
      if o'.None? { assert t.ring == Seen(t, p); }
  }

  /** Only the producer inside a push, or one that begins while none is, can move. */
  lemma Who<T>(m: Shared<T>, o: Option<nat>, p: nat, a: Action<T>)
    requires Sound(m, o) && Can(m, By(p, a)) && (a.LoadOwnTail? ==> AllIdle(m))
    ensures Inv(Seen(m, p)) && forall q :: q != p ==> !Busy(m, q)
  {
    hide Inv, Slot;
    assert Busy(m, p) <==> !m.producers[p].NoPush?;
    if o.None? {
      assert Seen(m, p) == m.ring;
    } else {
      assert Busy(m, o.value);
      assert p == o.value;
    }
  }

  ghost predicate CanAll<T>(m: Shared<T>, run: seq<Move<T>>)
    decreases |run|
  {
    run == [] || (Can(m, run[0]) && CanAll(Do(m, run[0]), run[1..]))
  }

  ghost function Done<T>(m: Shared<T>, run: seq<Move<T>>): Shared<T>
    requires CanAll(m, run)
    decreases |run|
  {
    if run == [] then m else Done(Do(m, run[0]), run[1..])
  }

  /** No push begins while another is between the load and the store of the tail. */
  ghost predicate OneAtATime<T>(m: Shared<T>, run: seq<Move<T>>)
    requires CanAll(m, run)
    decreases |run|
  {
    run == [] || ((Begins(run[0]) ==> AllIdle(m)) && OneAtATime(Do(m, run[0]), run[1..]))
  }

  lemma {:induction false} SoundRun<T>(m: Shared<T>, o: Option<nat>, run: seq<Move<T>>) returns (o': Option<nat>)
    requires Sound(m, o) && CanAll(m, run) && OneAtATime(m, run)
    ensures Sound(Done(m, run), o')
    decreases |run|
  {
    hide Sound, Can, Do, Begins;
    if run == [] {
      o' := o;
    } else {
      var o1 := SoundStep(m, o, run[0]);
      o' := SoundRun(Do(m, run[0]), o1, run[1..]);
    }
  }

  function Start<T>(k: nat, slots: seq<T>, ids: set<nat>): Shared<T> {
    Shared(Initial(k, slots), map p | p in ids :: NoPush)
  }

  /** The items of the pushes under way, each as its producer passed it, after a move. */
  function Noted<T>(current: map<nat, T>, s: Move<T>): map<nat, T> {
    if s.By? && s.action.LoadOwnTail? then current[s.producer := s.action.item] else current
  }

  /** The item a move hands over. */
  function Given<T>(current: map<nat, T>, s: Move<T>): seq<T> {
    if s.By? && s.action.StoreTail? && s.producer in current then [current[s.producer]] else []
  }

  /** The items of the pushes that reach their store, each as its producer passed it. */
  function Accepted<T>(current: map<nat, T>, run: seq<Move<T>>): seq<T>
    decreases |run|
  {
    if run == [] then [] else Given(current, run[0]) + Accepted(Noted(current, run[0]), run[1..])
  }

  /** How many pops of the run reach their store. */
  function Removed<T>(run: seq<Move<T>>): nat {
    if run == [] then 0 else (if run[0] == Consume(StoreHead) then 1 else 0) + Removed(run[1..])
  }

  /** Every push under way carries what its producer passed. */
  ghost predicate AllCarry<T>(m: Shared<T>, current: map<nat, T>) {
    forall p :: Busy(m, p) ==> p in current && current[p] == m.producers[p].item
  }

  lemma CarryStep<T>(m: Shared<T>, s: Move<T>, current: map<nat, T>)
    requires Can(m, s) && AllCarry(m, current)
    ensures AllCarry(Do(m, s), Noted(current, s)) && Do(m, s).ring.pushed == m.ring.pushed + Given(current, s)
    ensures |Do(m, s).ring.popped| == |m.ring.popped| + (if s == Consume(StoreHead) then 1 else 0)
  {
    hide Slot;
    var t := Do(m, s);
    assert forall q :: s.By? && q != s.producer ==> (Busy(t, q) <==> Busy(m, q));
    assert s.By? && !s.action.LoadOwnTail? ==> Busy(m, s.producer);
  }

  lemma {:induction false} RunAccepted<T>(m: Shared<T>, run: seq<Move<T>>, current: map<nat, T>)
    requires CanAll(m, run) && AllCarry(m, current)
    ensures Done(m, run).ring.pushed == m.ring.pushed + Accepted(current, run)
    ensures |Done(m, run).ring.popped| == |m.ring.popped| + Removed(run)
    decreases |run|
  {
    hide Can, Do, AllCarry, Noted, Given;
    if run == [] {
    } else {
      CarryStep(m, run[0], current);
      RunAccepted(Do(m, run[0]), run[1..], Noted(current, run[0]));
    }
  }

  /** One at a time, any number of producers keep the ring a queue: what is accepted is what they passed, what is taken
      is its beginning, in order, and nothing accepted is lost. */
  lemma ManyProducersFifo<T>(k: nat, slots: seq<T>, ids: set<nat>, run: seq<Move<T>>)
    requires k < 32 && |slots| == Pow2(k) && CanAll(Start(k, slots, ids), run) && OneAtATime(Start(k, slots, ids), run)
    ensures Removed(run) <= |Accepted(map[], run)| <= Removed(run) + Pow2(k)
    ensures var m := Done(Start(k, slots, ids), run);
      !Lost(m) && m.ring.pushed == Accepted(map[], run) && m.ring.popped == Accepted(map[], run)[..Removed(run)]
  {
    hide CanAll, Done, OneAtATime, Pow2;
    var m := Start(k, slots, ids);
    assert AllIdle(m);
    assert Sound(m, None);
    var o := SoundRun(m, None, run);
    SoundCounts(Done(m, run), o);
    SameSize(m, run);
    RunAccepted(m, run, map[]);
  }

  lemma {:induction false} SameSize<T>(m: Shared<T>, run: seq<Move<T>>)
    requires CanAll(m, run)
    ensures Done(m, run).ring.k == m.ring.k
    decreases |run|
  {
    if run == [] {
    } else {
      assert Do(m, run[0]).ring.k == m.ring.k;
      hide Can, Do;
      SameSize(Do(m, run[0]), run[1..]);
    }
  }

  // ---- two at a time ----------------------------------------------------------------------------------

  /** p is inside a push on a sound ring, and q has loaded the same tail. */
  ghost predicate Clash<T>(m: Shared<T>, p: nat, q: nat) {
    && p != q && Busy(m, p) && Inv(Seen(m, p)) && m.ring.producer.NoPush?
    && q in m.producers && m.producers[q].TailLoaded? && m.producers[q].tail == m.ring.tail
  }

  ghost predicate Full<T>(r: Ring<T>) { |r.pushed| == |r.popped| + r.Entries() }

  function StepsLeft<T>(c: Consumer<T>): nat {
    match c case NoPop => 4 case HeadLoaded(_) => 3 case NonEmpty(_) => 2 case Taken(_, _) => 1
  }

  function NextPop<T>(c: Consumer<T>): Action<T> {
    match c
    case NoPop => LoadOwnHead
    case HeadLoaded(_) => LoadTail
    case NonEmpty(_) => ReadSlot
    case Taken(_, _) => StoreHead
  }

  function NextPush<T>(p: Producer<T>): Action<T> { if p.Room? then WriteSlot else LoadHead }

  function StageLeft<T>(p: Producer<T>): nat {
    match p case NoPush => 0 case TailLoaded(_, _) => 3 case Room(_, _) => 2 case Written(_, _) => 1
  }

  /** From a full ring the consumer can go on until there is room. */
  lemma PopStep<T>(m: Shared<T>, p: nat, q: nat)
    requires Clash(m, p, q) && Full(Seen(m, p))
    ensures Can(m, Consume(NextPop(m.ring.consumer)))
    ensures Clash(Do(m, Consume(NextPop(m.ring.consumer))), p, q)
    ensures Do(m, Consume(NextPop(m.ring.consumer))).producers == m.producers
    ensures Full(Seen(Do(m, Consume(NextPop(m.ring.consumer))), p)) ==>
              StepsLeft(Do(m, Consume(NextPop(m.ring.consumer))).ring.consumer) < StepsLeft(m.ring.consumer)
  {
    hide Slot, Pow2, Holds, Wrap, Distance, Home, Succ;
    var r, a := Seen(m, p), NextPop<T>(m.ring.consumer);
    Positive(r.k);
    ReportsExact(r);
    NeverStuck(r);
    StepInv(r, a);
    assert Seen(Do(m, Consume(a)), p) == Apply(r, a);
    assert Busy(Do(m, Consume(a)), p);
  }

  lemma PushStep<T>(m: Shared<T>, p: nat, q: nat)
    requires Clash(m, p, q) && ((m.producers[p].TailLoaded? && !Full(Seen(m, p))) || m.producers[p].Room?)
    ensures Can(m, By(p, NextPush(m.producers[p])))
    ensures Clash(Do(m, By(p, NextPush(m.producers[p]))), p, q)
    ensures StageLeft(Do(m, By(p, NextPush(m.producers[p]))).producers[p]) < StageLeft(m.producers[p])
  {
    hide Slot, Pow2, Holds, Wrap, Distance, Home, Succ;
    var r := Seen(m, p);
    var a := NextPush(m.producers[p]);
    ReportsExact(r);
    NeverStuck(r);
    StepInv(r, a);
    assert Seen(Do(m, By(p, a)), p) == Apply(r, a);
  }

  lemma More<T>(m: Shared<T>, s: Move<T>, run: seq<Move<T>>)
    requires Can(m, s) && !Begins(s) && CanAll(Do(m, s), run) && OneAtATime(Do(m, s), run)
    ensures CanAll(m, [s] + run) && OneAtATime(m, [s] + run) && Done(m, [s] + run) == Done(Do(m, s), run)
  {
    hide Can, Do, Begins;
    assert ([s] + run)[1..] == run;
  }

  /** Both pushes go through and one of the two items is lost. */
  lemma {:induction false} Loses<T>(m: Shared<T>, p: nat, q: nat) returns (run: seq<Move<T>>)
    requires Clash(m, p, q)
    ensures CanAll(m, run) && OneAtATime(m, run) && Lost(Done(m, run))
    decreases StageLeft(m.producers[p]), if Full(Seen(m, p)) then StepsLeft(m.ring.consumer) else 0
  {
    hide CanAll, Done, OneAtATime, Can, Do, Lost, Full, Inv;
    if m.producers[p].Written? {
      run := Overwrites(m, p, q);
    } else if m.producers[p].TailLoaded? && Full(Seen(m, p)) {
      var s := Consume(NextPop(m.ring.consumer));
      PopStep(m, p, q);
      var rest := Loses(Do(m, s), p, q);
      More(m, s, rest);
      run := [s] + rest;
    } else {
      var s := By(p, NextPush(m.producers[p]));
      PushStep(m, p, q);
      var rest := Loses(Do(m, s), p, q);
      More(m, s, rest);
      run := [s] + rest;
    }
  }

  lemma Overwrites<T>(m: Shared<T>, p: nat, q: nat) returns (run: seq<Move<T>>)
    requires Clash(m, p, q) && m.producers[p].Written?
    ensures CanAll(m, run) && OneAtATime(m, run) && Lost(Done(m, run))
  {
    hide CanAll, Done, OneAtATime, Slot, Pow2, Holds, Wrap, Distance, Home, Succ;
    var r := Seen(m, p);
    ReportsExact(r);
    OwnSlot(|r.pushed|, r.k);
    var a1: Move<T>, a2: Move<T> := By(q, LoadHead), By(q, WriteSlot);
    var a3: Move<T>, a4: Move<T> := By(p, StoreTail), By(q, StoreTail);
    var m1 := Do(m, a1);
    assert m1.producers[q] == Room(m.producers[q].item, m.ring.tail) && m1.producers[p] == m.producers[p];
    var m2 := Do(m1, a2);
    var m3 := Do(m2, a3);
    var m4 := Do(m3, a4);
    assert m4.ring.tail == Succ(m.ring.tail) && |m4.ring.pushed| == |m.ring.pushed| + 2;
    SuccWrap(|m.ring.pushed|);
    WrapMoves(|m.ring.pushed| + 1);
    assert Lost(m4);
    hide Can, Do, Lost;
    NoMoves(m4);
    More(m3, a4, []);
    More(m2, a3, [a4] + []);
    More(m1, a2, [a3] + ([a4] + []));
    More(m, a1, [a2] + ([a3] + ([a4] + [])));
    run := [a1] + ([a2] + ([a3] + ([a4] + [])));
  }

  lemma NoMoves<T>(m: Shared<T>)
    ensures CanAll(m, []) && OneAtATime(m, []) && Done(m, []) == m
  {}

  lemma WrapMoves(n: nat)
    ensures Wrap(n) != Wrap(n + 1)
  {}

  /** If a push begins on a ring used one at a time so far, and none begins later while another is under way, then
      nothing is lost in any continuation if and only if no other push is under way now. */
  lemma RaceExact<T>(m: Shared<T>, o: Option<nat>, q: nat, item: T, t: Shared<T>)
    requires Sound(m, o) && Can(m, By(q, LoadOwnTail(item))) && t == Do(m, By(q, LoadOwnTail(item)))
    ensures (forall run :: CanAll(t, run) && OneAtATime(t, run) ==> !Lost(Done(t, run))) <==> AllIdle(m)
  {
    hide CanAll, Done, OneAtATime, Lost, Slot, Inv;
    if AllIdle(m) {
      var o1 := SoundStep(m, o, By(q, LoadOwnTail(item)));
      forall run | CanAll(t, run) && OneAtATime(t, run) ensures !Lost(Done(t, run)) {
        var o2 := SoundRun(t, o1, run);
        SoundCounts(Done(t, run), o2);
      }
    } else {
      var p := o.value;
      assert Busy(m, p) && Seen(t, p) == Seen(m, p);
      assert Clash(t, p, q);
      var run := Loses(t, p, q);
    }
  }

  /** From the start, two producers that load the same tail lose an item. */
  lemma CompletionLost<T>(k: nat, slots: seq<T>, x: T, y: T) returns (run: seq<Move<T>>)
    requires k < 32 && |slots| == Pow2(k)
    ensures CanAll(Start(k, slots, {0, 1}), run) && Lost(Done(Start(k, slots, {0, 1}), run))
  {
    hide CanAll, Done, OneAtATime, Lost, Slot, Pow2;
    var m := Start(k, slots, {0, 1});
    assert AllIdle(m) && Sound(m, None);
    var m1 := Do(m, By(0, LoadOwnTail(x)));
    var o := SoundStep(m, None, By(0, LoadOwnTail(x)));
    assert Busy(m1, 0) && o == Some(0);
    var m2 := Do(m1, By(1, LoadOwnTail(y)));
    assert Seen(m2, 0) == Seen(m1, 0) && Busy(m2, 0);
    assert Clash(m2, 0, 1);
    var rest := Loses(m2, 0, 1);
    hide Can, Do;
    First(m1, By(1, LoadOwnTail(y)), rest);
    First(m, By(0, LoadOwnTail(x)), [By(1, LoadOwnTail(y))] + rest);
    run := [By(0, LoadOwnTail(x))] + ([By(1, LoadOwnTail(y))] + rest);
  }

  lemma First<T>(m: Shared<T>, s: Move<T>, run: seq<Move<T>>)
    requires Can(m, s) && CanAll(Do(m, s), run)
    ensures CanAll(m, [s] + run) && Done(m, [s] + run) == Done(Do(m, s), run)
  {
    hide Can, Do;
    assert ([s] + run)[1..] == run;
  }
}
