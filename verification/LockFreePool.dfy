/** The lock-free pool of src/kernel/mem/pool.c: a stack of free indices threaded through the elements, whose head
    carries a tag that every successful exchange advances. */
module LockFreePool {
  import opened Common

  const IDX_MAX := 0xFFFF
  const TAG_INC := 0x1_0000
  const HEAD_LIMIT := 0x1_0000_0000_0000_0000
  const TAG_LIMIT := 0x1_0000_0000_0000   // tags are 48 bits wide and wrap

  /** The low 16 bits of the head, and the head that replaces it: the tag advanced, the index n. */
  function IdxOf(head: nat): nat { head % TAG_INC }

  function NewHead(head: nat, n: nat): nat { (head - head % TAG_INC + TAG_INC) % HEAD_LIMIT + n }

  /** A call under way. pool_alloc: the head loaded, the element's link read. pool_free: begun, the head loaded, the
      element's link written. The version is the number of successful exchanges before the load. */
  datatype Call =
    | AllocLoaded(head: nat, version: nat)
    | AllocRead(head: nat, version: nat, next: nat)
    | Freeing(idx: nat)
    | FreeLoaded(idx: nat, head: nat, version: nat)
    | FreeLinked(idx: nat, head: nat, version: nat)

  /** head and next are the shared memory; stack is the free list it stands for, used the indices handed out, version
      the number of successful exchanges. */
  datatype Pool = Pool(capacity: nat, head: nat, next: map<nat, nat>, calls: map<nat, Call>, stack: seq<nat>,
                       used: set<nat>, version: nat)

  datatype Action =
    | BeginAlloc(caller: nat)      // load the head; give up when the list is empty
    | ReadNext(caller: nat)
    | AllocExchange(caller: nat)
    | BeginFree(caller: nat, idx: nat)
    | LoadHead(caller: nat)
    | WriteNext(caller: nat)
    | FreeExchange(caller: nat)
    | Retry(caller: nat)           // a spurious failure of the weak exchange
    | Scribble(idx: nat, n: nat)   // the owner of an element uses the link field for something else

  function TagOf(version: nat): nat { version % TAG_LIMIT }

  function Pack(version: nat, idx: nat): nat { TagOf(version) * TAG_INC + idx }

  function Top(stack: seq<nat>): nat { if stack == [] then IDX_MAX else stack[0] }

  ghost predicate Recent(p: Pool, version: nat) { version <= p.version < version + TAG_LIMIT }

  /** pool_alloc tries no exchange after 2^48 exchanges or more have overtaken it. */
  ghost predicate Timely(p: Pool, a: Action) {
    a.AllocExchange? && a.caller in p.calls && p.calls[a.caller].AllocRead? ==> Recent(p, p.calls[a.caller].version)
  }

  ghost predicate Enabled(p: Pool, a: Action) {
    match a
    case BeginAlloc(t) => t !in p.calls
    case ReadNext(t) => t in p.calls && p.calls[t].AllocLoaded? && IdxOf(p.calls[t].head) in p.next
    case AllocExchange(t) => t in p.calls && p.calls[t].AllocRead?
    case BeginFree(t, idx) => t !in p.calls && idx in p.used
    case LoadHead(t) => t in p.calls && p.calls[t].Freeing?
    case WriteNext(t) => t in p.calls && p.calls[t].FreeLoaded?
    case FreeExchange(t) => t in p.calls && p.calls[t].FreeLinked?
    case Retry(t) => t in p.calls && (p.calls[t].AllocRead? || p.calls[t].FreeLinked?)
    case Scribble(idx, n) => idx in p.used && n <= IDX_MAX
  }

  /** pool_alloc goes round: load the head again. */
  ghost function Reload(p: Pool, t: nat): Pool {
    if IdxOf(p.head) == IDX_MAX then Pool(p.capacity, p.head, p.next, p.calls - {t}, p.stack, p.used, p.version)
    else Pool(p.capacity, p.head, p.next, p.calls[t := AllocLoaded(p.head, p.version)], p.stack, p.used, p.version)
  }

  ghost function SetCall(p: Pool, t: nat, c: Call): Pool {
    Pool(p.capacity, p.head, p.next, p.calls[t := c], p.stack, p.used, p.version)
  }

  ghost function Apply(p: Pool, a: Action): Pool
    requires Enabled(p, a)
  {
    match a
    case BeginAlloc(t) => Reload(p, t)
    case ReadNext(t) =>
      SetCall(p, t, AllocRead(p.calls[t].head, p.calls[t].version, p.next[IdxOf(p.calls[t].head)]))
    case AllocExchange(t) =>
      var AllocRead(h, _, n) := p.calls[t];
      if p.head != h then Reload(p, t)
      else Pool(p.capacity, NewHead(h, n), p.next, p.calls - {t}, if p.stack == [] then [] else p.stack[1..],
                p.used + {IdxOf(h)}, p.version + 1)
    case BeginFree(t, idx) =>
      Pool(p.capacity, p.head, p.next, p.calls[t := Freeing(idx)], p.stack, p.used - {idx}, p.version)
    case LoadHead(t) => SetCall(p, t, FreeLoaded(p.calls[t].idx, p.head, p.version))
    case WriteNext(t) =>
      var FreeLoaded(idx, h, v) := p.calls[t];
      Pool(p.capacity, p.head, p.next[idx := IdxOf(h)], p.calls[t := FreeLinked(idx, h, v)], p.stack, p.used, p.version)
    case FreeExchange(t) =>
      var FreeLinked(idx, h, _) := p.calls[t];
      if p.head != h then SetCall(p, t, Freeing(idx))
      else Pool(p.capacity, NewHead(h, idx), p.next, p.calls - {t}, [idx] + p.stack, p.used, p.version + 1)
    case Retry(t) => if p.calls[t].AllocRead? then Reload(p, t) else SetCall(p, t, Freeing(p.calls[t].idx))
    case Scribble(idx, n) => Pool(p.capacity, p.head, p.next[idx := n], p.calls, p.stack, p.used, p.version)
  }

  // ---- the head word ----------------------------------------------------------------------------------

  lemma HeadParts(v: nat, idx: nat)
    requires idx <= IDX_MAX
    ensures IdxOf(Pack(v, idx)) == idx
    ensures forall n :: 0 <= n <= IDX_MAX ==> NewHead(Pack(v, idx), n) == Pack(v + 1, n)
  {}

  /** Two heads are equal just when the indices and, within a window of 2^48 exchanges, the versions are. */
  lemma HeadExact(v: nat, w: nat, i: nat, j: nat)
    requires v <= w < v + TAG_LIMIT && i <= IDX_MAX && j <= IDX_MAX
    ensures Pack(v, i) == Pack(w, j) <==> v == w && i == j
  {}

  /** Whatever the number of exchanges in between: a remembered head looks current just when its index is on top
      again and the exchanges since are a multiple of 2^48. */
  lemma LooksCurrent(v: nat, w: nat, i: nat, j: nat)
    requires v <= w && i <= IDX_MAX && j <= IDX_MAX
    ensures Pack(v, i) == Pack(w, j) <==> (w - v) % TAG_LIMIT == 0 && i == j
  {
    HeadParts(v, i);
    HeadParts(w, j);
    SameRemainder(v, w);
  }

  lemma SameRemainder(v: nat, w: nat)
    requires v <= w
    ensures v % TAG_LIMIT == w % TAG_LIMIT <==> (w - v) % TAG_LIMIT == 0
  {}

  // ---- the invariant ----------------------------------------------------------------------------------

  /** The index below position i of the stack. */
  ghost function Under(stack: seq<nat>, i: nat): nat { if i + 1 < |stack| then stack[i + 1] else IDX_MAX }

  ghost predicate Linked(next: map<nat, nat>, stack: seq<nat>) {
    forall i :: 0 <= i < |stack| ==> stack[i] in next && next[stack[i]] == Under(stack, i)
  }

  /** Call t is on its way to give index x back. */
  ghost predicate Holds(calls: map<nat, Call>, t: nat, x: nat) {
    t in calls && !calls[t].AllocLoaded? && !calls[t].AllocRead? && calls[t].idx == x
  }

  ghost predicate Held(calls: map<nat, Call>, x: nat) { exists t :: Holds(calls, t, x) }

  /** Every index is in exactly one place: on the stack, handed out, or on its way back. */
  ghost predicate Partition(capacity: nat, stack: seq<nat>, used: set<nat>, calls: map<nat, Call>) {
    && Distinct(stack)
    && (forall x :: x in stack ==> x < capacity && x !in used)
    && (forall x :: x in used ==> x < capacity)
    && (forall t: nat, x: nat :: Holds(calls, t, x) ==> x < capacity && x !in stack && x !in used)
    && (forall t: nat, u: nat, x: nat :: Holds(calls, t, x) && Holds(calls, u, x) ==> t == u)
    && (forall x: nat :: x < capacity ==> x in stack || x in used || Held(calls, x))
  }

  /** The head was loaded at that version. */
  ghost predicate Stamped(h: nat, v: nat, version: nat, head: nat) {
    v <= version && h == Pack(v, IdxOf(h)) && (v == version ==> h == head)
  }

  /** What a call remembers is up to date as long as no exchange has succeeded since its load. */
  ghost predicate CallOk(head: nat, version: nat, next: map<nat, nat>, capacity: nat, c: Call) {
    match c
    case AllocLoaded(h, v) => Stamped(h, v, version, head) && IdxOf(h) < capacity
    case AllocRead(h, v, n) =>
      && Stamped(h, v, version, head) && IdxOf(h) < capacity && n <= IDX_MAX
      && (v == version ==> IdxOf(h) in next && n == next[IdxOf(h)])
    case Freeing(_) => true
    case FreeLoaded(_, h, v) => Stamped(h, v, version, head)
    case FreeLinked(idx, h, v) => Stamped(h, v, version, head) && idx in next && next[idx] == IdxOf(h)
  }

  ghost predicate CallsOk(p: Pool) {
    forall t :: t in p.calls ==> CallOk(p.head, p.version, p.next, p.capacity, p.calls[t])
  }

  ghost predicate NextOk(next: map<nat, nat>, capacity: nat) {
    forall x: nat :: x < capacity ==> x in next && next[x] <= IDX_MAX
  }

  ghost predicate Inv(p: Pool) {
    && 0 < p.capacity <= IDX_MAX
    && p.head == Pack(p.version, Top(p.stack))
    && NextOk(p.next, p.capacity) && Linked(p.next, p.stack)
    && Partition(p.capacity, p.stack, p.used, p.calls) && CallsOk(p)
  }

  // ---- steps inside a call ----------------------------------------------------------------------------

  lemma SameHolders(p: Pool, calls: map<nat, Call>)
    requires Partition(p.capacity, p.stack, p.used, p.calls)
    requires forall t: nat, x: nat :: Holds(p.calls, t, x) <==> Holds(calls, t, x)
    ensures Partition(p.capacity, p.stack, p.used, calls)
  {
    hide Holds, Distinct;
    forall x: nat | Held(p.calls, x) ensures Held(calls, x) { var t :| Holds(p.calls, t, x); assert Holds(calls, t, x); }
  }

  /** The head names an element of the pool, or nothing. */
  lemma HeadIdx(p: Pool)
    requires Inv(p)
    ensures IdxOf(p.head) == Top(p.stack) && p.head == Pack(p.version, IdxOf(p.head))
    ensures if p.stack == [] then IdxOf(p.head) == IDX_MAX else IdxOf(p.head) < p.capacity
  {
    hide Pack, IdxOf, Linked, NextOk, CallsOk;
    assert p.stack != [] ==> p.stack[0] in p.stack;
    HeadParts(p.version, Top(p.stack));
  }

  lemma CallStep(p: Pool, t: nat, calls: map<nat, Call>)
    requires Inv(p) && forall x: nat :: Holds(p.calls, t, x) <==> Holds(calls, t, x)
    requires forall u :: u != t ==> (u in p.calls <==> u in calls) && (u in calls ==> calls[u] == p.calls[u])
    requires t in calls ==> CallOk(p.head, p.version, p.next, p.capacity, calls[t])
    ensures Inv(Pool(p.capacity, p.head, p.next, calls, p.stack, p.used, p.version))
  {
    hide Pack, CallOk, Linked, NextOk, Partition;
    SameHolders(p, calls);
  }

  lemma ReloadInv(p: Pool, t: nat)
    requires Inv(p) && (t in p.calls ==> p.calls[t].AllocRead?)
    ensures Inv(Reload(p, t))
  {
    hide Inv, Pack, IdxOf;
    HeadIdx(p);
    assert p.capacity <= IDX_MAX by { Bounds(p); }
    CallStep(p, t, Reload(p, t).calls);
  }

  lemma Bounds(p: Pool)
    requires Inv(p)
    ensures 0 < p.capacity <= IDX_MAX
  {}

  lemma ReadNextInv(p: Pool, t: nat)
    requires Inv(p) && Enabled(p, ReadNext(t))
    ensures Inv(Apply(p, ReadNext(t)))
  {
    hide Pack, IdxOf, Partition, Linked;
    assert CallOk(p.head, p.version, p.next, p.capacity, p.calls[t]);
    CallStep(p, t, Apply(p, ReadNext(t)).calls);
  }

  lemma LoadHeadInv(p: Pool, t: nat)
    requires Inv(p) && Enabled(p, LoadHead(t))
    ensures Inv(Apply(p, LoadHead(t)))
  {
    hide Pack, IdxOf, Partition, Linked;
    HeadIdx(p);
    CallStep(p, t, Apply(p, LoadHead(t)).calls);
  }

  lemma BackToFree(p: Pool, t: nat)
    requires Inv(p) && t in p.calls && p.calls[t].FreeLinked?
    ensures Inv(SetCall(p, t, Freeing(p.calls[t].idx)))
  {
    hide Inv;
    CallStep(p, t, p.calls[t := Freeing(p.calls[t].idx)]);
  }

  // ---- writes to links --------------------------------------------------------------------------------

  /** Writing the link of an element outside the stack, held by no other call. */
  lemma WriteLink(p: Pool, x: nat, n: nat, own: set<nat>)
    requires Inv(p) && x < p.capacity && n <= IDX_MAX && x !in p.stack
    requires forall u :: Holds(p.calls, u, x) ==> u in own
    ensures NextOk(p.next[x := n], p.capacity) && Linked(p.next[x := n], p.stack)
    ensures forall u :: u in p.calls && u !in own ==> CallOk(p.head, p.version, p.next[x := n], p.capacity, p.calls[u])
  {
    hide Pack, IdxOf, Partition;
    HeadIdx(p);
    forall u | u in p.calls && u !in own ensures CallOk(p.head, p.version, p.next[x := n], p.capacity, p.calls[u]) {
      assert CallOk(p.head, p.version, p.next, p.capacity, p.calls[u]) && !Holds(p.calls, u, x);
      if p.stack != [] { assert p.stack[0] in p.stack; }
    }
  }

  lemma ScribbleInv(p: Pool, x: nat, n: nat)
    requires Inv(p) && Enabled(p, Scribble(x, n))
    ensures Inv(Apply(p, Scribble(x, n)))
  {
    hide Pack, CallOk, Linked, NextOk;
    WriteLink(p, x, n, {});
  }

  lemma WriteNextInv(p: Pool, t: nat)
    requires Inv(p) && Enabled(p, WriteNext(t))
    ensures Inv(Apply(p, WriteNext(t)))
  {
    hide Pack, Linked, NextOk, Partition, Distinct;
    var FreeLoaded(x, h, v) := p.calls[t];
    assert Holds(p.calls, t, x) && CallOk(p.head, p.version, p.next, p.capacity, p.calls[t]);
    HolderAlone(p, t, x);
    WriteLink(p, x, IdxOf(h), {t});
    SameHolders(p, Apply(p, WriteNext(t)).calls);
  }

  lemma HolderAlone(p: Pool, t: nat, x: nat)
    requires Inv(p) && Holds(p.calls, t, x)
    ensures x < p.capacity && x !in p.stack && x !in p.used && forall u :: Holds(p.calls, u, x) ==> u == t
  {}

  // ---- successful exchanges ---------------------------------------------------------------------------

  /** After an exchange no remembered head is current any more. */
  lemma Outdated(p: Pool, head: nat, calls: map<nat, Call>)
    requires CallsOk(p) && forall t :: t in calls ==> t in p.calls && calls[t] == p.calls[t]
    ensures forall t :: t in calls ==> CallOk(head, p.version + 1, p.next, p.capacity, calls[t])
  {
    hide Pack, IdxOf;
    forall t | t in calls ensures CallOk(head, p.version + 1, p.next, p.capacity, calls[t]) {
      assert CallOk(p.head, p.version, p.next, p.capacity, p.calls[t]);
    }
  }

  /** The exchange of a caller that is not overtaken by 2^48 others succeeds just when none has succeeded since. */
  lemma ExchangeExact(p: Pool, h: nat, v: nat)
    requires Inv(p) && Stamped(h, v, p.version, p.head) && Recent(p, v) && IdxOf(h) <= IDX_MAX
    ensures h == p.head <==> v == p.version
  {
    hide Pack, IdxOf, Inv;
    HeadIdx(p);
    HeadBound(p);
    HeadExact(v, p.version, IdxOf(h), IdxOf(p.head));
  }

  lemma HeadBound(p: Pool)
    ensures IdxOf(p.head) <= IDX_MAX
  {}

  lemma LinkedPop(next: map<nat, nat>, stack: seq<nat>)
    requires Linked(next, stack) && stack != []
    ensures Linked(next, stack[1..]) && stack[0] in next && next[stack[0]] == Top(stack[1..])
  {
    var rest := stack[1..];
    forall i | 0 <= i < |rest| ensures rest[i] in next && next[rest[i]] == Under(rest, i) {
      assert rest[i] == stack[i + 1] && Under(rest, i) == Under(stack, i + 1);
    }
    assert next[stack[0]] == Under(stack, 0);
  }

  lemma LinkedPush(next: map<nat, nat>, stack: seq<nat>, x: nat)
    requires Linked(next, stack) && x in next && next[x] == Top(stack)
    ensures Linked(next, [x] + stack)
  {
    var more := [x] + stack;
    forall i | 0 <= i < |more| ensures more[i] in next && next[more[i]] == Under(more, i) {
      if i > 0 { assert more[i] == stack[i - 1] && Under(more, i) == Under(stack, i - 1); }
    }
  }

  lemma PopParts(p: Pool, t: nat)
    requires Inv(p) && p.stack != [] && t in p.calls && p.calls[t].AllocRead?
    ensures Linked(p.next, p.stack[1..]) && Partition(p.capacity, p.stack[1..], p.used + {p.stack[0]}, p.calls - {t})
    ensures p.stack[0] in p.next && p.next[p.stack[0]] == Top(p.stack[1..]) && p.stack[0] !in p.used
  {
    hide Pack, CallOk, Linked, Held, Partition;
    LinkedPop(p.next, p.stack);
    var calls := p.calls - {t};
    forall u: nat, x: nat ensures Holds(p.calls, u, x) <==> Holds(calls, u, x) {}
    SameHolders(p, calls);
    PopPartition(p.capacity, p.stack, p.used, calls);
  }

  lemma TopApart(stack: seq<nat>, top: nat, rest: seq<nat>)
    requires Distinct(stack) && stack != [] && top == stack[0] && rest == stack[1..]
    ensures Distinct(rest) && top !in rest
    ensures forall x :: x in stack <==> x == top || x in rest
  {
    assert forall i :: 0 <= i < |rest| ==> rest[i] == stack[i + 1];
    assert stack == [top] + rest;
  }

  /** The top of the stack is handed out. */
  lemma PopPartition(capacity: nat, stack: seq<nat>, used: set<nat>, calls: map<nat, Call>)
    requires Partition(capacity, stack, used, calls) && stack != []
    ensures Partition(capacity, stack[1..], used + {stack[0]}, calls) && stack[0] !in used
  {
    hide Holds, Held;
    var rest, top := stack[1..], stack[0];
    TopApart(stack, top, rest);
    hide Distinct;
    assert forall x :: x in rest ==> x < capacity && x !in used + {top};
    assert forall x :: x in used + {top} ==> x < capacity;
    assert forall t: nat, x: nat :: Holds(calls, t, x) ==> x < capacity && x !in rest && x !in used + {top};
    assert forall x: nat :: x < capacity ==> x in rest || x in used + {top} || Held(calls, x);
  }

  /** An exchange of pool_alloc that succeeds, however late, keeps the pool sound if and only if the link it had
      read is still the one of the top element. */
  lemma LateAllocExact(p: Pool, t: nat)
    requires Inv(p) && Enabled(p, AllocExchange(t)) && p.head == p.calls[t].head
    ensures IdxOf(p.head) < p.capacity && IdxOf(p.head) in p.next && IdxOf(p.head) !in p.used
    ensures Inv(Apply(p, AllocExchange(t))) <==> p.calls[t].next == p.next[IdxOf(p.head)]
  {
    hide Pack, IdxOf, NewHead, Partition, Linked, Distinct;
    var AllocRead(h, v, n) := p.calls[t];
    assert CallOk(p.head, p.version, p.next, p.capacity, p.calls[t]);
    HeadIdx(p);
    HeadBound(p);
    PopParts(p, t);
    HeadParts(p.version, IdxOf(h));
    Outdated(p, NewHead(h, n), p.calls - {t});
    var q := Apply(p, AllocExchange(t));
    TopBound(p, p.stack[1..]);
    HeadExact(p.version + 1, p.version + 1, n, Top(p.stack[1..]));
  }

  lemma TopBound(p: Pool, rest: seq<nat>)
    requires Inv(p) && p.stack != [] && rest == p.stack[1..]
    ensures Top(rest) <= IDX_MAX
  {
    if rest != [] { assert rest[0] in p.stack; }
  }

  lemma AllocExchangeInv(p: Pool, t: nat)
    requires Inv(p) && Enabled(p, AllocExchange(t)) && Timely(p, AllocExchange(t))
    ensures Inv(Apply(p, AllocExchange(t)))
    ensures p.head == p.calls[t].head ==> IdxOf(p.head) < p.capacity && IdxOf(p.head) !in p.used
  {
    hide Pack, IdxOf, NewHead, Partition, Linked, Distinct;
    var AllocRead(h, v, n) := p.calls[t];
    assert CallOk(p.head, p.version, p.next, p.capacity, p.calls[t]);
    ExchangeExact(p, h, v);
    if p.head == h { LateAllocExact(p, t); } else { ReloadInv(p, t); }
  }

  lemma PushParts(p: Pool, t: nat, x: nat)
    requires Inv(p) && Holds(p.calls, t, x) && x in p.next && p.next[x] == Top(p.stack)
    ensures Linked(p.next, [x] + p.stack) && Partition(p.capacity, [x] + p.stack, p.used, p.calls - {t})
  {
    hide Pack, CallOk, Linked;
    LinkedPush(p.next, p.stack, x);
    var stack, calls := [x] + p.stack, p.calls - {t};
    forall u: nat, y: nat ensures Holds(calls, u, y) <==> Holds(p.calls, u, y) && u != t {}
    forall y: nat | y < p.capacity ensures y in stack || y in p.used || Held(calls, y) {
      if Held(p.calls, y) && y != x { var u :| Holds(p.calls, u, y); assert Holds(calls, u, y); }
    }
  }

  /** pool_free writes its link itself, so its exchange keeps the pool sound however late it comes. */
  lemma FreeExchangeInv(p: Pool, t: nat)
    requires Inv(p) && Enabled(p, FreeExchange(t))
    ensures Inv(Apply(p, FreeExchange(t)))
  {
    hide Pack, IdxOf, NewHead, Partition, Linked, Distinct;
    var FreeLinked(x, h, v) := p.calls[t];
    assert Holds(p.calls, t, x) && CallOk(p.head, p.version, p.next, p.capacity, p.calls[t]);
    if p.head == h {
      HeadBound(p);
      HeadIdx(p);
      HolderAlone(p, t, x);
      PushParts(p, t, x);
      HeadParts(p.version, IdxOf(h));
      Outdated(p, NewHead(h, x), p.calls - {t});
    } else {
      BackToFree(p, t);
    }
  }

  lemma BeginFreeInv(p: Pool, t: nat, x: nat)
    requires Inv(p) && Enabled(p, BeginFree(t, x))
    ensures Inv(Apply(p, BeginFree(t, x)))
  {
    hide Pack, IdxOf, Linked, NextOk;
    var calls := p.calls[t := Freeing(x)];
    forall u: nat, y: nat ensures Holds(calls, u, y) <==> Holds(p.calls, u, y) || (u == t && y == x) {}
    forall y: nat | y < p.capacity ensures y in p.stack || y in p.used - {x} || Held(calls, y) {
      if y == x { assert Holds(calls, t, x); }
      if Held(p.calls, y) { var u :| Holds(p.calls, u, y); assert Holds(calls, u, y); }
    }
  }

  // ---- whole runs -------------------------------------------------------------------------------------

  lemma StepInv(p: Pool, a: Action)
    requires Inv(p) && Enabled(p, a) && Timely(p, a)
    ensures Inv(Apply(p, a))
  {
    hide Inv;
    match a
    case BeginAlloc(t) => ReloadInv(p, t);
    case ReadNext(t) => ReadNextInv(p, t);
    case AllocExchange(t) => AllocExchangeInv(p, t);
    case BeginFree(t, x) => BeginFreeInv(p, t, x);
    case LoadHead(t) => LoadHeadInv(p, t);
    case WriteNext(t) => WriteNextInv(p, t);
    case FreeExchange(t) => FreeExchangeInv(p, t);
    case Retry(t) => if p.calls[t].AllocRead? { ReloadInv(p, t); } else { BackToFree(p, t); }
    case Scribble(x, n) => ScribbleInv(p, x, n);
  }

  ghost predicate Possible(p: Pool, run: seq<Action>)
    decreases |run|
  {
    run == [] || (Enabled(p, run[0]) && Possible(Apply(p, run[0]), run[1..]))
  }

  ghost function After(p: Pool, run: seq<Action>): Pool
    requires Possible(p, run)
    decreases |run|
  {
    if run == [] then p else After(Apply(p, run[0]), run[1..])
  }

  ghost predicate AllTimely(p: Pool, run: seq<Action>)
    requires Possible(p, run)
    decreases |run|
  {
    run == [] || (Timely(p, run[0]) && AllTimely(Apply(p, run[0]), run[1..]))
  }

  lemma {:induction false} RunInv(p: Pool, run: seq<Action>)
    requires Inv(p) && Possible(p, run) && AllTimely(p, run)
    ensures Inv(After(p, run))
    decreases |run|
  {
    hide Inv, Enabled, Apply, Timely;
    if run == [] {
    } else {
      StepInv(p, run[0]);
      RunInv(Apply(p, run[0]), run[1..]);
    }
  }

  /** pool_init: every element is free, in order of index. */
  method Init(capacity: nat) returns (p: Pool)
    requires 0 < capacity <= IDX_MAX
    ensures Inv(p) && p.capacity == capacity && p.stack == All(capacity) && p.used == {} && p.calls == map[]
  {
    hide Inv, Linked;
    var next: map<nat, nat> := map[];
    var i := 0;
    while i < capacity
      invariant i <= capacity
      invariant forall j: nat :: j < i ==> j in next && next[j] == (if j == capacity - 1 then IDX_MAX else j + 1)
    {
      next := next[i := if i == capacity - 1 then IDX_MAX else i + 1];
      i := i + 1;
    }
    p := Pool(capacity, 0, next, map[], All(capacity), {}, 0);
    InitialInv(p);
  }

  function All(n: nat): (r: seq<nat>)
    ensures |r| == n && forall i :: 0 <= i < n ==> r[i] == i
  {
    if n == 0 then [] else All(n - 1) + [n - 1]
  }

  lemma InitialInv(p: Pool)
    requires 0 < p.capacity <= IDX_MAX && p.head == 0 && p.version == 0 && p.calls == map[] && p.used == {}
    requires p.stack == All(p.capacity)
    requires forall j: nat :: j < p.capacity ==> j in p.next && p.next[j] == (if j == p.capacity - 1 then IDX_MAX else j + 1)
    ensures Inv(p)
  {
    hide All;
    assert forall x: nat :: x < p.capacity ==> p.stack[x] == x;
    assert p.head == Pack(p.version, Top(p.stack));
    assert Distinct(p.stack);
    forall x: nat | x < p.capacity ensures x in p.stack { assert p.stack[x] == x; }
    assert Partition(p.capacity, p.stack, p.used, p.calls);
    forall i | 0 <= i < |p.stack| ensures p.stack[i] in p.next && p.next[p.stack[i]] == Under(p.stack, i) {}
  }

  /** However calls interleave, and whatever owners store in the link fields: as long as pool_alloc tries no
      exchange after 2^48 others have overtaken it, an index it hands out is in no one's hands, neither handed out
      nor on its way back. */
  lemma NeverHandedOutTwice(p: Pool, run: seq<Action>, t: nat)
    requires Inv(p) && Possible(p, run) && AllTimely(p, run)
    requires Enabled(After(p, run), AllocExchange(t)) && Timely(After(p, run), AllocExchange(t))
    ensures var q := After(p, run); var x := IdxOf(q.head);
      q.head == q.calls[t].head ==>
        && x < q.capacity && x !in q.used && (forall u: nat :: !Holds(q.calls, u, x))
        && Apply(q, AllocExchange(t)).used == q.used + {x}
  {
    hide Possible, After, AllTimely, Inv, Pack, IdxOf, NewHead;
    RunInv(p, run);
    var q := After(p, run);
    AllocExchangeInv(q, t);
    if q.head == q.calls[t].head {
      HeadIdx(q);
      Bounds(q);
      TopFree(q);
    }
  }

  lemma TopFree(p: Pool)
    requires Inv(p) && p.stack != []
    ensures forall u: nat :: !Holds(p.calls, u, p.stack[0])
  {
    assert p.stack[0] in p.stack;
  }

  /** pool_alloc reports exhaustion just when the free list is empty at its load. */
  lemma ExhaustedExactly(p: Pool, t: nat)
    requires Inv(p) && Enabled(p, BeginAlloc(t))
    ensures t !in Apply(p, BeginAlloc(t)).calls <==> p.stack == []
  {
    hide Inv, Pack, IdxOf;
    HeadIdx(p);
    Bounds(p);
  }

  // ---- a caller overtaken by 2^48 exchanges -------------------------------------------------------------

  lemma {:induction false} Then(p: Pool, a: seq<Action>, b: seq<Action>)
    requires Possible(p, a) && Possible(After(p, a), b)
    ensures Possible(p, a + b) && After(p, a + b) == After(After(p, a), b)
    decreases |a|
  {
    hide Enabled, Apply;
    if a == [] {
      assert a + b == b;
    } else {
      Then(Apply(p, a[0]), a[1..], b);
      assert (a + b)[0] == a[0] && (a + b)[1..] == a[1..] + b;
    }
  }

  lemma One(p: Pool, a: Action)
    requires Enabled(p, a)
    ensures Possible(p, [a]) && After(p, [a]) == Apply(p, a)
  {
    hide Enabled, Apply;
    assert [a][1..] == [];
  }

  lemma Extend(p: Pool, run: seq<Action>, a: Action)
    requires Possible(p, run) && Enabled(After(p, run), a)
    ensures Possible(p, run + [a]) && After(p, run + [a]) == Apply(After(p, run), a)
  {
    hide Enabled, Apply, Possible, After;
    One(After(p, run), a);
    Then(p, run, [a]);
  }

  /** Caller t allocates the top element on its own. */
  lemma TakeTop(p: Pool, t: nat, version: nat, top: nat, next: nat) returns (run: seq<Action>)
    requires t !in p.calls && p.head == Pack(version, top) && top < IDX_MAX && top in p.next
    requires p.next[top] == next <= IDX_MAX
    ensures Possible(p, run) && var q := After(p, run);
      && q == Pool(p.capacity, Pack(version + 1, next), p.next, p.calls, if p.stack == [] then [] else p.stack[1..],
                   p.used + {top}, p.version + 1)
  {
    hide Pack, NewHead, IdxOf, Possible, After;
    HeadParts(version, top);
    One(p, BeginAlloc(t));
    Extend(p, [BeginAlloc(t)], ReadNext(t));
    Extend(p, [BeginAlloc(t)] + [ReadNext(t)], AllocExchange(t));
    run := [BeginAlloc(t)] + [ReadNext(t)] + [AllocExchange(t)];
    assert After(p, run).calls == p.calls;
  }

  /** Caller t gives an element back on its own. */
  lemma GiveBack(p: Pool, t: nat, version: nat, top: nat, idx: nat) returns (run: seq<Action>)
    requires t !in p.calls && p.head == Pack(version, top) && top <= IDX_MAX && idx in p.used && idx <= IDX_MAX
    ensures Possible(p, run) && var q := After(p, run);
      && q == Pool(p.capacity, Pack(version + 1, idx), p.next[idx := top], p.calls, [idx] + p.stack,
                   p.used - {idx}, p.version + 1)
  {
    hide Pack, NewHead, IdxOf, Possible, After;
    HeadParts(version, top);
    One(p, BeginFree(t, idx));
    Extend(p, [BeginFree(t, idx)], LoadHead(t));
    Extend(p, [BeginFree(t, idx)] + [LoadHead(t)], WriteNext(t));
    Extend(p, [BeginFree(t, idx)] + [LoadHead(t)] + [WriteNext(t)], FreeExchange(t));
    run := [BeginFree(t, idx)] + [LoadHead(t)] + [WriteNext(t)] + [FreeExchange(t)];
    assert After(p, run).calls == p.calls;
  }

  /** Elements 1 and 2 are in use and 0 is free; caller 0 has read, at the very start, that 1 follows 0. */
  ghost function Stale(version: nat): Pool {
    var calls := map[0 := AllocRead(Pack(0, 0), 0, 1)];
    Pool(3, Pack(version, 0), map[0 := IDX_MAX, 1 := 2, 2 := IDX_MAX], calls, [0], {1, 2}, version)
  }

  lemma {:induction false} Cycles(version: nat, k: nat) returns (run: seq<Action>)
    ensures Possible(Stale(version), run) && After(Stale(version), run) == Stale(version + 2 * k)
    decreases k
  {
    hide Pack, Possible, After;
    if k == 0 {
      run := [];
      NoSteps(Stale(version));
    } else {
      var p := Stale(version);
      var take := TakeTop(p, 1, version, 0, IDX_MAX);
      var q := After(p, take);
      var give := GiveBack(q, 1, version + 1, IDX_MAX, 0);
      Then(p, take, give);
      assert q.next[0 := IDX_MAX] == p.next && [0] + q.stack == [0] && q.used - {0} == {1, 2};
      assert After(p, take + give) == Stale(version + 2);
      var rest := Cycles(version + 2, k - 1);
      Then(p, take + give, rest);
      run := take + give + rest;
    }
  }

  lemma NoSteps(p: Pool)
    ensures Possible(p, []) && After(p, []) == p
  {}

  ghost function Fresh(): Pool { Pool(3, 0, map[0 := 1, 1 := 2, 2 := IDX_MAX], map[], [0, 1, 2], {}, 0) }

  lemma FreshIsInitial()
    ensures Fresh().stack == All(3) && Inv(Fresh())
  {
    assert Fresh().stack == All(3);
    InitialInv(Fresh());
  }

  lemma ReachStale() returns (run: seq<Action>)
    ensures Possible(Fresh(), run) && After(Fresh(), run) == Stale(4)
  {
    hide Pack, Possible, After;
    var p := Fresh();
    assert p.head == Pack(0, 0) && IdxOf(p.head) == 0 by { HeadParts(0, 0); ZeroHead(); }
    One(p, BeginAlloc(0));
    Extend(p, [BeginAlloc(0)], ReadNext(0));
    run := [BeginAlloc(0)] + [ReadNext(0)];
    var p0 := After(p, run);
    assert p0 == Pool(3, Pack(0, 0), p.next, map[0 := AllocRead(Pack(0, 0), 0, 1)], [0, 1, 2], {}, 0);
    var a := TakeTop(p0, 1, 0, 0, 1);
    var p1 := After(p0, a);
    var b := TakeTop(p1, 1, 1, 1, 2);
    var p2 := After(p1, b);
    var c := TakeTop(p2, 1, 2, 2, IDX_MAX);
    var p3 := After(p2, c);
    var d := GiveBack(p3, 1, 3, IDX_MAX, 0);
    Then(p2, c, d);
    Then(p1, b, c + d);
    Then(p0, a, b + (c + d));
    Then(p, run, a + (b + (c + d)));
    assert p3.stack == [] && p3.used - {0} == {1, 2};
    run := run + (a + (b + (c + d)));
  }

  /** From the start: a caller reads whatever the owner of the element has stored in its link, and its exchange fails. */
  lemma ReadsScribble(n: nat) returns (run: seq<Action>)
    requires n <= IDX_MAX
    ensures Possible(Fresh(), run) && var q := After(Fresh(), run);
      && Enabled(q, AllocExchange(0)) && q.calls[0].next == n
      && Apply(q, AllocExchange(0)).head == q.head && Apply(q, AllocExchange(0)).used == q.used
  {
    hide Pack, Possible, After, NewHead, IdxOf;
    var p := Fresh();
    HeadParts(0, 0);
    HeadParts(1, 1);
    ZeroHead();
    HeadExact(0, 1, 0, 1);
    One(p, BeginAlloc(0));
    var take := TakeTop(After(p, [BeginAlloc(0)]), 1, 0, 0, 1);
    Then(p, [BeginAlloc(0)], take);
    run := [BeginAlloc(0)] + take;
    Extend(p, run, Scribble(0, n));
    run := run + [Scribble(0, n)];
    Extend(p, run, ReadNext(0));
    run := run + [ReadNext(0)];
  }

  lemma ZeroHead()
    ensures Pack(0, 0) == 0
  {}

  /** From the start: a caller overtaken by exactly 2^48 exchanges makes the pool hand out an element that is in use. */
  lemma HandedOutTwice() returns (run: seq<Action>)
    ensures Inv(Fresh()) && Possible(Fresh(), run) && var q := After(Fresh(), run);
      Enabled(q, AllocExchange(1)) && q.head == q.calls[1].head && IdxOf(q.head) in q.used
  {
    hide Pack, Possible, After, IdxOf, NewHead, Inv;
    FreshIsInitial();
    var p := Fresh();
    var reach := ReachStale();
    var cycles := Cycles(4, TAG_LIMIT / 2 - 2);
    var q := Stale(TAG_LIMIT);
    Then(p, reach, cycles);
    LooksCurrent(0, TAG_LIMIT, 0, 0);
    HeadParts(0, 0);
    HeadParts(1, 1);
    run := reach + cycles;
    Extend(p, run, AllocExchange(0));
    run := run + [AllocExchange(0)];
    assert After(p, run).head == Pack(1, 1) && After(p, run).used == {0, 1, 2};
    Extend(p, run, BeginAlloc(1));
    run := run + [BeginAlloc(1)];
    Extend(p, run, ReadNext(1));
    run := run + [ReadNext(1)];
  }
}
