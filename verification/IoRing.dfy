/** The single-producer single-consumer rings of include/sys/ioring.h, with the kernel side of
    src/kernel/io/ring.c: free-running 32-bit indices masked into a table of slots. */
module IoRing {
  import opened Common
  import opened Rounding

  const INDEX_LIMIT := 0x1_0000_0000

  // ---- masking ----------------------------------------------------------------------------------------

  function Pow2(k: nat): (r: nat)
    ensures r > 0
  {
    if k == 0 then 1 else 2 * Pow2(k - 1)
  }

  /** x & y, bit by bit. */
  function BitAnd(x: nat, y: nat): (r: nat)
    ensures r <= y
    decreases x
  {
    if x == 0 then 0 else 2 * BitAnd(x / 2, y / 2) + (if x % 2 == 1 && y % 2 == 1 then 1 else 0)
  }

  lemma Double(x: nat, m: nat)
    requires m > 0
    ensures x % (2 * m) == 2 * (x / 2 % m) + x % 2
  {
    var q, r := x / 2 / m, x / 2 % m;
    assert x / 2 == q * m + r;
    assert x == q * (2 * m) + (2 * r + x % 2) by { assert q * (2 * m) == 2 * (q * m); }
    DivUnique(x, 2 * m, q, 2 * r + x % 2);
  }

  lemma {:induction false} MaskIsMod(x: nat, k: nat)
    ensures BitAnd(x, Pow2(k) - 1) == x % Pow2(k)
    decreases k
  {
    hide BitAnd;
    if k == 0 {
      MaskZero(x);
    } else if x == 0 {
      MaskOfZero(Pow2(k) - 1);
      Small(0, Pow2(k));
    } else {
      var m := Pow2(k - 1);
      MaskIsMod(x / 2, k - 1);
      Double(x, m);
      MaskStep(x, m);
    }
  }

  lemma MaskStep(x: nat, m: nat)
    requires x > 0 && m > 0
    ensures BitAnd(x, 2 * m - 1) == 2 * BitAnd(x / 2, m - 1) + x % 2
  {
    assert (2 * m - 1) / 2 == m - 1 && (2 * m - 1) % 2 == 1;
  }

  lemma {:induction false} MaskZero(x: nat)
    ensures BitAnd(x, 0) == 0
  {
    if x == 0 {
    } else {
      MaskZero(x / 2);
    }
  }

  ghost predicate IsPow2(n: nat) { exists k: nat :: n == Pow2(k) }

  lemma HalfNot(m: nat)
    requires m % 2 == 1
    ensures IsPow2(m / 2 + 1) ==> IsPow2(m + 1)
  {
    if IsPow2(m / 2 + 1) {
      var k: nat :| m / 2 + 1 == Pow2(k);
      assert Pow2(k + 1) == m + 1;
    }
  }

  /** A mask with a hole sends some index below it to slot 0. */
  lemma {:induction false} Hole(m: nat) returns (y: nat)
    requires !IsPow2(m + 1)
    ensures 0 < y <= m && BitAnd(y, m) == 0
  {
    assert m != 0 by { assert Pow2(0) == 1; }
    if m % 2 == 0 {
      y := 1;
      assert BitAnd(1, m) == 2 * BitAnd(0, m / 2) + 0;
    } else {
      HalfNot(m);
      var z := Hole(m / 2);
      y := 2 * z;
      assert BitAnd(y, m) == 2 * BitAnd(z, m / 2);
    }
  }

  /** Where an index goes in a table of that many entries. */
  function Slot(x: nat, entries: nat): (r: nat)
    requires entries > 0
    ensures r < entries
  {
    BitAnd(x, entries - 1)
  }

  /** Masking keeps a window of entries indices apart just when the number of entries is a power of two. */
  lemma MaskExact(entries: nat)
    requires entries > 0
    ensures (forall x, y :: 0 <= x < entries && 0 <= y < entries && Slot(x, entries) == Slot(y, entries) ==> x == y)
      <==> IsPow2(entries)
  {
    hide BitAnd;
    if IsPow2(entries) {
      var k: nat :| entries == Pow2(k);
      forall x | 0 <= x < entries ensures Slot(x, entries) == x { MaskIsMod(x, k); Small(x, entries); }
    } else {
      var y := Hole(entries - 1);
      assert Slot(y, entries) == 0 == Slot(0, entries) by { MaskOfZero(entries - 1); }
    }
  }

  lemma MaskOfZero(m: nat)
    ensures BitAnd(0, m) == 0
  {}

  lemma Small(x: nat, m: nat)
    requires x < m
    ensures x % m == x
  {
    DivUnique(x, m, 0, x);
  }

  lemma {:induction false} PowAdd(a: nat, b: nat)
    ensures Pow2(a + b) == Pow2(a) * Pow2(b)
  {
    if a == 0 {
    } else {
      PowAdd(a - 1, b);
    }
  }

  lemma TwoTo32()
    ensures Pow2(32) == INDEX_LIMIT
  {
    assert Pow2(8) == 256;
    PowAdd(8, 8);
    PowAdd(16, 16);
  }

  /** Wrapping the index at 32 bits does not disturb the slot it names. */
  lemma WrappedSlot(n: nat, k: nat)
    requires k <= 32
    ensures Slot(n % INDEX_LIMIT, Pow2(k)) == n % Pow2(k)
  {
    hide BitAnd, Pow2;
    TwoTo32();
    PowAdd(k, 32 - k);
    ModMod(n, Pow2(k), Pow2(32 - k));
    MaskIsMod(n % INDEX_LIMIT, k);
  }

  lemma WindowApart(a: nat, b: nat, m: nat)
    requires a < b < a + m
    ensures a % m != b % m
  {
    var q, r := a / m, a % m;
    assert a == q * m + r;
    if r + (b - a) < m {
      DivUnique(b, m, q, r + (b - a));
    } else {
      assert (q + 1) * m == q * m + m;
      DivUnique(b, m, q + 1, r + (b - a) - m);
    }
  }

  // ---- the protocol -----------------------------------------------------------------------------------

  /** Inside a push: the own index loaded, the other side's index loaded and room found, the slot written. */
  datatype Producer<T> = NoPush | TailLoaded(item: T, tail: nat) | Room(item: T, tail: nat) | Written(item: T, tail: nat)

  datatype Consumer<T> = NoPop | HeadLoaded(head: nat) | NonEmpty(head: nat) | Taken(head: nat, item: T)

  /** head, tail and slots are shared memory; pushed and popped list what has been handed over and taken. */
  datatype Ring<T> = Ring(k: nat, head: nat, tail: nat, slots: seq<T>, producer: Producer<T>, consumer: Consumer<T>,
                          pushed: seq<T>, popped: seq<T>)
  {
    function Entries(): nat { Pow2(k) }
  }

  datatype Action<T> =
    | LoadOwnTail(item: T)
    | LoadHead          // and give up when the ring is full
    | Scribble(item: T) // part of the slot written
    | WriteSlot
    | StoreTail
    | LoadOwnHead
    | LoadTail          // and give up when the ring is empty
    | ReadSlot
    | StoreHead

  /** The subtraction of 32-bit indices. */
  function Distance(tail: nat, head: nat): nat { (tail - head) % INDEX_LIMIT }

  function Succ(index: nat): nat { (index + 1) % INDEX_LIMIT }

  /** The 32-bit index of the n-th item, and the slot it goes to. */
  function Wrap(n: nat): nat { n % INDEX_LIMIT }

  function Home(n: nat, entries: nat): (r: nat)
    requires entries > 0
    ensures r < entries
  {
    n % entries
  }

  lemma SuccWrap(n: nat)
    ensures Succ(Wrap(n)) == Wrap(n + 1)
  {}

  predicate Enabled<T>(s: Ring<T>, a: Action<T>) {
    match a
    case LoadOwnTail(_) => s.producer.NoPush?
    case LoadHead => s.producer.TailLoaded?
    case Scribble(_) => s.producer.Room? && Slot(s.producer.tail, s.Entries()) < |s.slots|
    case WriteSlot => s.producer.Room? && Slot(s.producer.tail, s.Entries()) < |s.slots|
    case StoreTail => s.producer.Written?
    case LoadOwnHead => s.consumer.NoPop?
    case LoadTail => s.consumer.HeadLoaded?
    case ReadSlot => s.consumer.NonEmpty? && Slot(s.consumer.head, s.Entries()) < |s.slots|
    case StoreHead => s.consumer.Taken?
  }

  function Apply<T>(s: Ring<T>, a: Action<T>): Ring<T>
    requires Enabled(s, a)
  {
    match a
    case LoadOwnTail(v) => s.(producer := TailLoaded(v, s.tail))
    case LoadHead =>
      if Distance(s.producer.tail, s.head) >= s.Entries() then s.(producer := NoPush)
      else s.(producer := Room(s.producer.item, s.producer.tail))
    case Scribble(w) => s.(slots := s.slots[Slot(s.producer.tail, s.Entries()) := w])
    case WriteSlot =>
      s.(slots := s.slots[Slot(s.producer.tail, s.Entries()) := s.producer.item],
         producer := Written(s.producer.item, s.producer.tail))
    case StoreTail =>
      s.(tail := Succ(s.producer.tail), producer := NoPush, pushed := s.pushed + [s.producer.item])
    case LoadOwnHead => s.(consumer := HeadLoaded(s.head))
    case LoadTail => s.(consumer := if s.consumer.head == s.tail then NoPop else NonEmpty(s.consumer.head))
    case ReadSlot => s.(consumer := Taken(s.consumer.head, s.slots[Slot(s.consumer.head, s.Entries())]))
    case StoreHead => s.(head := Succ(s.consumer.head), consumer := NoPop, popped := s.popped + [s.consumer.item])
  }

  // ---- the invariant ------------------------------------------------------------------------------------

  ghost predicate Counts<T>(s: Ring<T>) {
    && s.k < 32 && |s.slots| == s.Entries()
    && s.tail == Wrap(|s.pushed|) && s.head == Wrap(|s.popped|)
    && |s.popped| <= |s.pushed| <= |s.popped| + s.Entries()
    && s.popped == s.pushed[..|s.popped|]
  }

  /** The slots hold what has been pushed and not yet popped. */
  ghost predicate Holds<T>(slots: seq<T>, pushed: seq<T>, from: nat) {
    |slots| > 0 && forall j :: from <= j < |pushed| ==> slots[Home(j, |slots|)] == pushed[j]
  }

  ghost predicate ProducerOk<T>(s: Ring<T>) {
    && (!s.producer.NoPush? ==> s.producer.tail == s.tail)
    && (s.producer.Room? || s.producer.Written? ==> |s.pushed| < |s.popped| + s.Entries())
    && (s.producer.Written? ==> |s.slots| == s.Entries() && s.slots[Home(|s.pushed|, s.Entries())] == s.producer.item)
  }

  ghost predicate ConsumerOk<T>(s: Ring<T>) {
    && (!s.consumer.NoPop? ==> s.consumer.head == s.head)
    && (s.consumer.NonEmpty? || s.consumer.Taken? ==> |s.popped| < |s.pushed|)
    && (s.consumer.Taken? ==> s.consumer.item == s.pushed[|s.popped|])
  }

  ghost predicate Inv<T>(s: Ring<T>) {
    Counts(s) && Holds(s.slots, s.pushed, |s.popped|) && ProducerOk(s) && ConsumerOk(s)
  }

  lemma PowLess(k: nat)
    requires k < 32
    ensures Pow2(k) < INDEX_LIMIT
  {
    hide Pow2;
    TwoTo32();
    PowAdd(k, 32 - k);
    Positive(31 - k);
    assert Pow2(32 - k) >= 2 by { PowAdd(1, 31 - k); PowOne(); }
    MulMono(2, Pow2(32 - k), Pow2(k));
  }

  lemma PowOne() ensures Pow2(1) == 2 {}

  lemma Positive(k: nat) ensures Pow2(k) > 0 {}

  /** The wrapped difference is the number of items in the ring. */
  lemma DistanceIs(p: nat, c: nat)
    requires c <= p < c + INDEX_LIMIT
    ensures Distance(Wrap(p), Wrap(c)) == p - c
  {}

  /** A write beside the unread items. */
  lemma WriteBeside<T>(slots: seq<T>, pushed: seq<T>, from: nat, v: T)
    requires Holds(slots, pushed, from) && from <= |pushed| < from + |slots|
    ensures Holds(slots[Home(|pushed|, |slots|) := v], pushed, from)
  {
    forall j | from <= j < |pushed| ensures Home(j, |slots|) != Home(|pushed|, |slots|) {
      WindowApart(j, |pushed|, |slots|);
    }
  }

  lemma OwnSlot(n: nat, k: nat)
    requires k < 32
    ensures Slot(Wrap(n), Pow2(k)) == Home(n, Pow2(k))
  {
    hide BitAnd, Pow2;
    WrappedSlot(n, k);
  }

  lemma ProducerStep<T>(s: Ring<T>, a: Action<T>)
    requires Inv(s) && Enabled(s, a) && (a.LoadOwnTail? || a.LoadHead? || a.Scribble? || a.WriteSlot? || a.StoreTail?)
    ensures Inv(Apply(s, a))
  {
    hide Slot, Pow2, Holds, Wrap, Home, Succ, Distance;
    PowLess(s.k);
    DistanceIs(|s.pushed|, |s.popped|);
    OwnSlot(|s.pushed|, s.k);
    SuccWrap(|s.pushed|);
    if s.producer.Room? {
      if a.Scribble? { WriteBeside(s.slots, s.pushed, |s.popped|, a.item); }
      if a.WriteSlot? { WriteBeside(s.slots, s.pushed, |s.popped|, s.producer.item); }
    }
    if a.StoreTail? { PushOne(s.slots, s.pushed, |s.popped|, s.producer.item); }
  }

  lemma PushOne<T>(slots: seq<T>, pushed: seq<T>, from: nat, v: T)
    requires Holds(slots, pushed, from) && slots[Home(|pushed|, |slots|)] == v
    ensures Holds(slots, pushed + [v], from)
  {}

  lemma OldestHeld<T>(slots: seq<T>, pushed: seq<T>, from: nat)
    requires Holds(slots, pushed, from) && from < |pushed|
    ensures slots[Home(from, |slots|)] == pushed[from] && Holds(slots, pushed, from + 1)
  {}

  /** A wrapped index differs from another just when the counts do. */
  lemma IndexApart(p: nat, c: nat)
    requires c <= p < c + INDEX_LIMIT
    ensures Wrap(p) == Wrap(c) <==> p == c
  {}

  lemma ConsumerStep<T>(s: Ring<T>, a: Action<T>)
    requires Inv(s) && Enabled(s, a) && (a.LoadOwnHead? || a.LoadTail? || a.ReadSlot? || a.StoreHead?)
    ensures Inv(Apply(s, a))
  {
    hide Slot, Pow2, Holds, Wrap, Home, Succ, Distance;
    PowLess(s.k);
    OwnSlot(|s.popped|, s.k);
    SuccWrap(|s.popped|);
    IndexApart(|s.pushed|, |s.popped|);
    if |s.popped| < |s.pushed| { OldestHeld(s.slots, s.pushed, |s.popped|); }
  }

  // ---- whole runs -------------------------------------------------------------------------------------

  function Initial<T>(k: nat, slots: seq<T>): Ring<T> { Ring(k, 0, 0, slots, NoPush, NoPop, [], []) }

  ghost predicate Possible<T>(s: Ring<T>, run: seq<Action<T>>)
    decreases |run|
  {
    run == [] || (Enabled(s, run[0]) && Possible(Apply(s, run[0]), run[1..]))
  }

  ghost function After<T>(s: Ring<T>, run: seq<Action<T>>): Ring<T>
    requires Possible(s, run)
    decreases |run|
  {
    if run == [] then s else After(Apply(s, run[0]), run[1..])
  }

  lemma StepInv<T>(s: Ring<T>, a: Action<T>)
    requires Inv(s) && Enabled(s, a)
    ensures Inv(Apply(s, a)) && Apply(s, a).k == s.k
  {
    hide Inv, Slot;
    if a.LoadOwnTail? || a.LoadHead? || a.Scribble? || a.WriteSlot? || a.StoreTail? {
      ProducerStep(s, a);
    } else {
      ConsumerStep(s, a);
    }
  }

  lemma {:induction false} RunInv<T>(s: Ring<T>, run: seq<Action<T>>)
    requires Inv(s) && Possible(s, run)
    ensures Inv(After(s, run)) && After(s, run).k == s.k
    decreases |run|
  {
    hide Inv, Enabled, Apply;
    if run == [] {
    } else {
      StepInv(s, run[0]);
      RunInv(Apply(s, run[0]), run[1..]);
    }
  }

  // ---- what the callers passed, read off the run ----------------------------------------------------------

  /** The items of the pushes that reach their store, each as its caller passed it; current is the item of the push
      under way, if there is one. */
  function Handed<T>(current: Option<T>, run: seq<Action<T>>): seq<T>
    decreases |run|
  {
    if run == [] then []
    else match run[0]
      case LoadOwnTail(v) => Handed(Some(v), run[1..])
      case StoreTail => (if current.Some? then [current.value] else []) + Handed(None, run[1..])
      case _ => Handed(current, run[1..])
  }

  /** How many pops of the run reach their store. */
  function Pops<T>(run: seq<Action<T>>): nat {
    if run == [] then 0 else (if run[0].StoreHead? then 1 else 0) + Pops(run[1..])
  }

  /** The push under way carries what its caller passed. */
  ghost predicate Carries<T>(p: Producer<T>, current: Option<T>) { !p.NoPush? ==> current == Some(p.item) }

  lemma CarriesStep<T>(s: Ring<T>, a: Action<T>, current: Option<T>)
    requires Enabled(s, a) && Carries(s.producer, current)
    ensures Carries(Apply(s, a).producer, if a.LoadOwnTail? then Some(a.item) else if a.StoreTail? then None else current)
    ensures Apply(s, a).pushed == s.pushed + (if a.StoreTail? && current.Some? then [current.value] else [])
    ensures |Apply(s, a).popped| == |s.popped| + (if a.StoreHead? then 1 else 0)
  {
    hide Slot;
  }

  lemma {:induction false} RunHanded<T>(s: Ring<T>, run: seq<Action<T>>, current: Option<T>)
    requires Possible(s, run) && Carries(s.producer, current)
    ensures After(s, run).pushed == s.pushed + Handed(current, run)
    ensures |After(s, run).popped| == |s.popped| + Pops(run)
    decreases |run|
  {
    hide Enabled, Apply, Carries;
    if run == [] {
    } else {
      var a := run[0];
      CarriesStep(s, a, current);
      RunHanded(Apply(s, a), run[1..], if a.LoadOwnTail? then Some(a.item) else if a.StoreTail? then None else current);
    }
  }

  /** However the two sides interleave: what went in is what the callers passed, what comes out is its beginning, in
      order and each item once, and never more than the table holds is under way. */
  lemma Fifo<T>(k: nat, slots: seq<T>, run: seq<Action<T>>)
    requires k < 32 && |slots| == Pow2(k) && Possible(Initial(k, slots), run)
    ensures Pops(run) <= |Handed(None, run)| <= Pops(run) + Pow2(k)
    ensures var s := After(Initial(k, slots), run);
      s.pushed == Handed(None, run) && s.popped == Handed(None, run)[..Pops(run)]
  {
    hide Possible, After, Pow2;
    RunInv(Initial(k, slots), run);
    RunHanded(Initial(k, slots), run, None);
  }

  /** The items under way. */
  ghost function Queue<T>(s: Ring<T>): seq<T>
    requires Inv(s)
  {
    s.pushed[|s.popped|..]
  }

  /** Each step is a step of a bounded queue: the store of the tail enqueues the caller's item, the store of the
      head dequeues the item the consumer holds, and nothing else is visible. */
  lemma Refines<T>(s: Ring<T>, a: Action<T>)
    requires Inv(s) && Enabled(s, a)
    ensures Inv(Apply(s, a))
    ensures Queue(Apply(s, a)) ==
      match a
      case StoreTail => Queue(s) + [s.producer.item]
      case StoreHead => Queue(s)[1..]
      case _ => Queue(s)
    ensures a.StoreHead? ==> Queue(s) != [] && s.consumer.item == Queue(s)[0]
    ensures var p := Apply(s, a).producer;
      !p.NoPush? ==> if a.LoadOwnTail? then p.item == a.item else !s.producer.NoPush? && p.item == s.producer.item
    ensures a.Scribble? ==> a.item in Apply(s, a).slots
    ensures |Queue(Apply(s, a))| <= s.Entries()
  {
    hide Slot, Pow2, Holds;
    StepInv(s, a);
    if a.Scribble? { assert Apply(s, a).slots[Slot(s.producer.tail, s.Entries())] == a.item; }
  }

  /** A push is refused just when the ring is full at the load of the head, a pop just when it is empty at the load
      of the tail; the difference the kernel waits on is the number of items. */
  lemma ReportsExact<T>(s: Ring<T>)
    requires Inv(s)
    ensures Distance(s.tail, s.head) == |Queue(s)|
    ensures Enabled(s, LoadHead) ==> (Apply(s, LoadHead).producer.NoPush? <==> |Queue(s)| == s.Entries())
    ensures Enabled(s, LoadTail) ==> (Apply(s, LoadTail).consumer.NoPop? <==> Queue(s) == [])
  {
    hide Slot, Pow2, Holds, Wrap, Distance;
    PowLess(s.k);
    DistanceIs(|s.pushed|, |s.popped|);
    IndexApart(|s.pushed|, |s.popped|);
  }

  /** A side that has begun can always go on: every slot index lies in the table. */
  lemma NeverStuck<T>(s: Ring<T>)
    requires Inv(s)
    ensures s.producer.Room? ==> Enabled(s, WriteSlot)
    ensures s.consumer.NonEmpty? ==> Enabled(s, ReadSlot)
  {}
}
