/** The event queue of the display client (src/libpatchwork/display.c). */
module Display {
  import opened Common

  const MAX_EVENT := 64

  datatype Event = Event(kind: nat, target: nat, raw: seq<bv8>)

  const SURFACE_ID_NONE := 0xFFFF_FFFF_FFFF_FFFF

  // ---- events ------------------------------------------------------------------------------------------

  /** Index of the first event of that kind. */
  function FirstOf(q: seq<Event>, kind: nat): (i: nat)
    ensures i <= |q| && (i < |q| ==> q[i].kind == kind) && forall j :: 0 <= j < i ==> q[j].kind != kind
  {
    if q == [] || q[0].kind == kind then 0 else 1 + FirstOf(q[1..], kind)
  }

  predicate Matches(e: Event, kind: nat, target: nat) {
    e.kind == kind && (e.target == target || target == SURFACE_ID_NONE)
  }

  /** The events of q that match, or that do not, in order. */
  function Select(q: seq<Event>, kind: nat, target: nat, yes: bool): seq<Event> {
    if q == [] then []
    else Select(q[..|q| - 1], kind, target, yes) + (if Matches(q[|q| - 1], kind, target) == yes then [q[|q| - 1]] else [])
  }

  lemma SelectNext(q: seq<Event>, i: nat, kind: nat, target: nat, yes: bool)
    requires i < |q|
    ensures Select(q[..i + 1], kind, target, yes) ==
      if Matches(q[i], kind, target) == yes
      then Select(q[..i], kind, target, yes) + [q[i]] else Select(q[..i], kind, target, yes)
  {
    assert q[..i + 1][..i] == q[..i];
  }

  lemma {:induction false} SelectedIs(q: seq<Event>, kind: nat, target: nat, e: Event)
    ensures e in Select(q, kind, target, true) <==>
      e in q && e.kind == kind && (e.target == target || target == SURFACE_ID_NONE)
  {
    if q == [] {
    } else {
      SelectedIs(q[..|q| - 1], kind, target, e);
      assert q == q[..|q| - 1] + [q[|q| - 1]];
    }
  }

  lemma SelectNone(kind: nat, target: nat)
    ensures Select([], kind, target, true) == [] && Subsequence(Select([], kind, target, false), [])
  {}

  lemma {:induction false} FirstIs(q: seq<Event>, kind: nat, i: nat)
    requires i <= |q| && (i < |q| ==> q[i].kind == kind) && forall j :: 0 <= j < i ==> q[j].kind != kind
    ensures FirstOf(q, kind) == i
  {}

  /** The queue with its first i events moved to the end. */
  ghost function Rotated(q: seq<Event>, i: nat): seq<Event>
    requires i <= |q|
  {
    q[i..] + q[..i]
  }

  lemma RotateOne(q: seq<Event>, i: nat)
    requires i < |q|
    ensures |Rotated(q, i)| == |q| && Rotated(q, i)[0] == q[i] && Rotated(q, i)[1..] == q[i + 1..] + q[..i]
    ensures Rotated(q, i + 1) == q[i + 1..] + q[..i] + [q[i]]
  {}

  lemma RotateEnds(q: seq<Event>)
    ensures Rotated(q, 0) == q && Rotated(q, |q|) == q
  {}

  /** xs can be found in ys in order. */
  ghost predicate Subsequence<T>(xs: seq<T>, ys: seq<T>)
    decreases |ys|
  {
    if xs == [] then true
    else if ys == [] then false
    else
      || (xs[|xs| - 1] == ys[|ys| - 1] && Subsequence(xs[..|xs| - 1], ys[..|ys| - 1]))
      || Subsequence(xs, ys[..|ys| - 1])
  }

  lemma SubsequenceMore<T>(xs: seq<T>, ys: seq<T>, y: T)
    requires Subsequence(xs, ys)
    ensures Subsequence(xs, ys + [y]) && Subsequence(xs + [y], ys + [y])
  {
    assert (ys + [y])[..|ys|] == ys && (xs + [y])[..|xs|] == xs;
  }

  /** The slots of a cyclic buffer from one index up to another. */
  ghost function Between(b: seq<Event>, r: nat, w: nat): (q: seq<Event>)
    requires |b| == MAX_EVENT && r < MAX_EVENT && w < MAX_EVENT
    ensures |q| == if r <= w then w - r else MAX_EVENT - r + w
  {
    if r <= w then b[r..w] else b[r..] + b[..w]
  }

  lemma Take(b: seq<Event>, r: nat, w: nat)
    requires |b| == MAX_EVENT && r < MAX_EVENT && w < MAX_EVENT
    ensures var q := Between(b, r, w);
      (r == w <==> q == []) && (r != w ==> q[0] == b[r] && Between(b, (r + 1) % MAX_EVENT, w) == q[1..])
  {
    hide Between;
    assert (r + 1) % MAX_EVENT == Step(r);
    if r != w {
      OneOff(b, r, w);
      First(b[r], Between(b, Step(r), w));
    }
  }

  function Step(r: nat): nat { if r + 1 < MAX_EVENT then r + 1 else 0 }

  lemma OneOff(b: seq<Event>, r: nat, w: nat)
    requires |b| == MAX_EVENT && r < MAX_EVENT && w < MAX_EVENT && r != w
    ensures Between(b, r, w) == [b[r]] + Between(b, Step(r), w)
  {
    if r < w { Straight(b, r, w); } else if r < MAX_EVENT - 1 { Around(b, r, w); } else { Last(b, w); }
  }

  lemma First(x: Event, rest: seq<Event>)
    ensures ([x] + rest)[0] == x && ([x] + rest)[1..] == rest
  {}

  lemma Straight(b: seq<Event>, r: nat, w: nat)
    requires r < w <= |b|
    ensures b[r..w] == [b[r]] + b[r + 1..w]
  {}

  lemma Around(b: seq<Event>, r: nat, w: nat)
    requires r < |b| && w <= |b|
    ensures b[r..] + b[..w] == [b[r]] + (b[r + 1..] + b[..w])
  {}

  lemma Last(b: seq<Event>, w: nat)
    requires |b| == MAX_EVENT && w < MAX_EVENT
    ensures b[MAX_EVENT - 1..] + b[..w] == [b[MAX_EVENT - 1]] + b[0..w]
  {}

  lemma Put(b: seq<Event>, r: nat, w: nat, e: Event)
    requires |b| == MAX_EVENT && r < MAX_EVENT && w < MAX_EVENT
    ensures var q, next := Between(b, r, w), (w + 1) % MAX_EVENT;
      (next == r <==> |q| == MAX_EVENT - 1) && (next != r ==> Between(b[w := e], r, next) == q + [e])
  {
    var c, next := b[w := e], (w + 1) % MAX_EVENT;
    if next != r {
      if r <= w < MAX_EVENT - 1 { assert c[r..next] == b[r..w] + [e]; }
      else if r <= w { assert c[r..] + c[..0] == b[r..w] + [e]; }
      else { assert c[r..] + c[..next] == b[r..] + b[..w] + [e]; }
    }
  }

  class EventQueue {
    const buffer: array<Event>
    var readIndex: nat
    var writeIndex: nat

    ghost predicate Valid()
      reads this
    {
      buffer.Length == MAX_EVENT && readIndex < MAX_EVENT && writeIndex < MAX_EVENT
    }

    /** The queued events, oldest first. */
    ghost function Contents(): (q: seq<Event>)
      requires Valid()
      reads this, buffer
      ensures |q| < MAX_EVENT
    {
      Between(buffer[..], readIndex, writeIndex)
    }

    constructor (blank: Event)
      ensures Valid() && Contents() == [] && fresh(buffer)
    {
      buffer := new Event[MAX_EVENT](_ => blank);
      readIndex, writeIndex := 0, 0;
    }

    method Read() returns (r: Option<Event>)
      requires Valid()
      modifies this`readIndex
      ensures Valid()
      ensures if old(Contents()) == [] then r == None && Contents() == []
              else r == Some(old(Contents())[0]) && Contents() == old(Contents())[1..]
    {
      hide Between;
      Take(buffer[..], readIndex, writeIndex);
      if readIndex == writeIndex { return None; }
      r := Some(buffer[readIndex]);
      readIndex := (readIndex + 1) % MAX_EVENT;
    }

    method Write(event: Event) returns (ok: bool)
      requires Valid()
      modifies this`writeIndex, buffer
      ensures Valid() && (ok <==> |old(Contents())| < 63)
      ensures Contents() == if ok then old(Contents()) + [event] else old(Contents())
    {
      var nextIndex := (writeIndex + 1) % MAX_EVENT;
      hide Between;
      Put(buffer[..], readIndex, writeIndex, event);
      if nextIndex == readIndex { return false; }
      buffer[writeIndex] := event;
      assert buffer[..] == old(buffer[..])[writeIndex := event];
      writeIndex := nextIndex;
      return true;
    }

    method Amount() returns (n: nat)
      requires Valid()
      ensures n == |Contents()|
    {
      if writeIndex >= readIndex { return writeIndex - readIndex; }
      return MAX_EVENT - (readIndex - writeIndex);
    }

    lemma Bound()
      requires Valid()
      ensures |Contents()| < MAX_EVENT
    {}

    /** The search of display_wait among the queued events: everything before the first match moves behind the rest. */
    method TakeQueued(expected: nat) returns (r: Option<Event>)
      requires Valid()
      modifies this, buffer
      ensures Valid()
      ensures var q := old(Contents()); var i := FirstOf(q, expected);
        if i == |q| then r == None && Contents() == q
        else r == Some(q[i]) && Contents() == q[i + 1..] + q[..i]
    {
      hide EventQueue.Contents, FirstOf, Rotated;
      ghost var q := Contents();
      RotateEnds(q);
      var eventsInPipe := Amount();
      Bound();
      for i := 0 to eventsInPipe
        invariant Valid() && |q| == eventsInPipe && Contents() == Rotated(q, i)
        invariant forall j :: 0 <= j < i ==> q[j].kind != expected
      {
        RotateOne(q, i);
        var event := Read();
        if event.value.kind != expected {
          var ok := Write(event.value);
        } else {
          FirstIs(q, expected, i);
          return event;
        }
      }
      FirstIs(q, expected, |q|);
      return None;
    }

    /** Handlers push further events; those that find the queue full are dropped. */
    method Push(events: seq<Event>)
      requires Valid()
      modifies this`writeIndex, buffer
      ensures Valid() && Contents() == old(Contents()) + Accepted(old(Contents()), events)
    {
      hide EventQueue.Contents;
      ghost var q := Contents();
      Bound();
      var i := 0;
      while i < |events|
        invariant i <= |events| && Valid() && Contents() == q + Accepted(q, events[..i]) && |q| <= 63
      {
        AcceptedMore(q, events, i);
        var ok := Write(events[i]);
        i := i + 1;
      }
      assert events[..|events|] == events;
    }

    /** One round: the event is dispatched, and its handler may push, or it goes back to the end. */
    method DispatchOne(kind: nat, target: nat, push: seq<Event>) returns (event: Event, hit: bool)
      requires Valid() && Contents() != []
      modifies this, buffer
      ensures Valid() && event == old(Contents())[0] && (hit <==> Matches(event, kind, target))
      ensures Contents() == Round(old(Contents()), kind, target, push)
    {
      hide EventQueue.Contents, Matches;
      Bound();
      var r := Read();
      event, hit := r.value, Matches(r.value, kind, target);
      if hit {
        Push(push);
      } else {
        var ok := Write(event);
      }
    }

    /** display_dispatch_pending, with what the handler of the k-th dispatched event pushes given by pushes. Each event
        that was queued is looked at once; what the handlers push is queued as far as there is room. */
    method DispatchPending(kind: nat, target: nat, pushes: seq<seq<Event>>) returns (dispatched: seq<Event>)
      requires Valid() && |Contents()| <= |pushes|
      modifies this, buffer
      ensures Valid()
      ensures dispatched == Select(old(Contents()), kind, target, true)
      ensures forall e :: e in dispatched <==>
        e in old(Contents()) && e.kind == kind && (e.target == target || target == 0xFFFF_FFFF_FFFF_FFFF)
      ensures Subsequence(Select(old(Contents()), kind, target, false), Contents())
      ensures Contents() == Rounds(old(Contents()), |old(Contents())|, kind, target, pushes)
    {
      hide EventQueue.Contents, Select, Subsequence, Matches, Rounds, Round, Halfway;
      ghost var q := Contents();
      Bound();
      ghost var tail: seq<Event> := [];
      dispatched := [];
      NothingYet(q, kind, target, pushes);
      assert q == q[0..] + tail;
      var eventsInPipe := Amount();
      for i := 0 to eventsInPipe
        invariant Valid() && |q| == eventsInPipe <= |pushes| && Contents() == q[i..] + tail && |dispatched| <= i
        invariant Halfway(q, i, tail, dispatched, kind, target, pushes)
      {
        ghost var added := OneOn(q, i, tail, dispatched, kind, target, pushes);
        var event, hit := DispatchOne(kind, target, pushes[|dispatched|]);
        if hit { dispatched := dispatched + [event]; }
        tail := tail + added;
      }
      AllDone(q, tail, dispatched, kind, target, pushes);
    }
  }

  // ---- what the handlers push -----------------------------------------------------------------------------

  /** Of the events pushed onto a queue, those that find room. */
  ghost function Accepted(q: seq<Event>, events: seq<Event>): seq<Event> {
    if |q| >= 63 then [] else if |q| + |events| <= 63 then events else events[..63 - |q|]
  }

  lemma AcceptedMore(q: seq<Event>, events: seq<Event>, i: nat)
    requires i < |events| && |q| <= 63
    ensures var before, after := Accepted(q, events[..i]), Accepted(q, events[..i + 1]);
      after == if |q + before| < 63 then before + [events[i]] else before
  {}

  /** The queue after its first event was looked at. */
  ghost function Round(q: seq<Event>, kind: nat, target: nat, push: seq<Event>): seq<Event>
    requires q != []
  {
    q[1..] + if Matches(q[0], kind, target) then Accepted(q[1..], push) else [q[0]]
  }

  /** The queue after n rounds; the handlers of the events dispatched push in turn. */
  ghost function Rounds(q: seq<Event>, n: nat, kind: nat, target: nat, pushes: seq<seq<Event>>): seq<Event>
    decreases n
  {
    if n == 0 || q == [] || pushes == [] then q
    else Rounds(Round(q, kind, target, pushes[0]), n - 1, kind, target,
                if Matches(q[0], kind, target) then pushes[1..] else pushes)
  }

  lemma OneRound(q: seq<Event>, n: nat, kind: nat, target: nat, pushes: seq<seq<Event>>)
    requires n > 0 && q != [] && pushes != []
    ensures Rounds(q, n, kind, target, pushes) ==
      Rounds(Round(q, kind, target, pushes[0]), n - 1, kind, target,
             if Matches(q[0], kind, target) then pushes[1..] else pushes)
  {
    hide Round, Matches;
  }

  lemma NoRounds(q: seq<Event>, kind: nat, target: nat, pushes: seq<seq<Event>>)
    ensures Rounds(q, 0, kind, target, pushes) == q
  {}

  /** After i rounds: the rest of the queue waits before tail. */
  ghost predicate Halfway(q: seq<Event>, i: nat, tail: seq<Event>, dispatched: seq<Event>, kind: nat, target: nat,
      pushes: seq<seq<Event>>)
  {
    && |dispatched| <= i <= |q| && i <= |pushes|
    && dispatched == Select(q[..i], kind, target, true) && Subsequence(Select(q[..i], kind, target, false), tail)
    && Rounds(q[i..] + tail, |q| - i, kind, target, pushes[|dispatched|..]) == Rounds(q, |q|, kind, target, pushes)
  }

  lemma NothingYet(q: seq<Event>, kind: nat, target: nat, pushes: seq<seq<Event>>)
    ensures Halfway(q, 0, [], [], kind, target, pushes)
  {
    hide Rounds;
    assert q[0..] + [] == q && pushes[0..] == pushes;
    SelectNone(kind, target);
  }

  lemma OneOn(q: seq<Event>, i: nat, tail: seq<Event>, dispatched: seq<Event>, kind: nat, target: nat,
        pushes: seq<seq<Event>>)
    returns (added: seq<Event>)
    requires Halfway(q, i, tail, dispatched, kind, target, pushes) && i < |q| <= |pushes|
    ensures (q[i..] + tail)[0] == q[i]
    ensures Round(q[i..] + tail, kind, target, pushes[|dispatched|]) == q[i + 1..] + (tail + added)
    ensures Halfway(q, i + 1, tail + added, if Matches(q[i], kind, target) then dispatched + [q[i]] else dispatched,
                    kind, target, pushes)
  {
    hide Matches, Select, Subsequence, Rounds, Accepted;
    var waiting, push := q[i..] + tail, pushes[|dispatched|];
    assert waiting[0] == q[i] && waiting[1..] == q[i + 1..] + tail;
    added := if Matches(q[i], kind, target) then Accepted(waiting[1..], push) else [q[i]];
    assert waiting[1..] + added == q[i + 1..] + (tail + added);
    OneRound(waiting, |q| - i, kind, target, pushes[|dispatched|..]);
    SelectNext(q, i, kind, target, true);
    SelectNext(q, i, kind, target, false);
    if Matches(q[i], kind, target) {
      assert pushes[|dispatched|..][1..] == pushes[|dispatched| + 1..];
      SubsequenceAll(Select(q[..i], kind, target, false), tail, added);
    } else {
      SubsequenceMore(Select(q[..i], kind, target, false), tail, q[i]);
    }
  }

  lemma AllDone(q: seq<Event>, tail: seq<Event>, dispatched: seq<Event>, kind: nat, target: nat, pushes: seq<seq<Event>>)
    requires Halfway(q, |q|, tail, dispatched, kind, target, pushes)
    ensures q[|q|..] + tail == tail == Rounds(q, |q|, kind, target, pushes)
    ensures dispatched == Select(q, kind, target, true) && Subsequence(Select(q, kind, target, false), tail)
    ensures forall e :: e in dispatched <==>
      e in q && e.kind == kind && (e.target == target || target == SURFACE_ID_NONE)
  {
    hide Matches, Select, Subsequence, Rounds;
    assert q[..|q|] == q && q[|q|..] + tail == tail;
    NoRounds(tail, kind, target, pushes[|dispatched|..]);
    forall e ensures e in dispatched <==> e in q && e.kind == kind && (e.target == target || target == SURFACE_ID_NONE) {
      SelectedIs(q, kind, target, e);
    }
  }

  lemma {:induction false} SubsequenceAll<T>(xs: seq<T>, ys: seq<T>, more: seq<T>)
    requires Subsequence(xs, ys)
    ensures Subsequence(xs, ys + more)
  {
    if more == [] {
      assert ys + more == ys;
    } else {
      var n := |more| - 1;
      SubsequenceAll(xs, ys, more[..n]);
      SubsequenceMore(xs, ys + more[..n], more[n]);
      assert ys + more[..n] + [more[n]] == ys + more;
    }
  }
}
