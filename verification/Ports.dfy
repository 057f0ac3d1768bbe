/** Reserving and releasing ranges of I/O ports (src/kernel/cpu/port.c), on top of the bitmap. */
module Ports {
  import opened Common
  import opened Words
  import opened Rounding
  import opened Bitmaps

  datatype Region = Region(base: nat, length: nat)
  {
    predicate Has(k: nat) { base <= k < base + length }
  }

  ghost predicate Held(live: seq<Region>, k: nat) { exists i :: 0 <= i < |live| && live[i].Has(k) }

  ghost predicate Apart(live: seq<Region>) {
    forall i, j, k: nat :: 0 <= i < |live| && 0 <= j < |live| && live[i].Has(k) && live[j].Has(k) ==> i == j
  }

  ghost predicate Bounded(live: seq<Region>, length: nat) {
    forall i :: 0 <= i < |live| ==> 0 < live[i].length && live[i].base + live[i].length <= length
  }

  /** The reserved ranges do not overlap, and the set bits are exactly the ports in them. */
  ghost predicate Tiles(ws: seq<bv64>, length: nat, live: seq<Region>) {
    && length <= 64 * |ws|
    && Bounded(live, length) && Apart(live)
    && (forall k: nat :: k < length ==> (At(ws, k) <==> Held(live, k)))
  }

  lemma HeldMore(live: seq<Region>, r: Region)
    ensures forall k: nat :: Held(live + [r], k) <==> Held(live, k) || r.Has(k)
  {
    hide Region.Has;
    var more := live + [r];
    forall k: nat ensures Held(more, k) <==> Held(live, k) || r.Has(k) {
      if Held(live, k) { var i :| 0 <= i < |live| && live[i].Has(k); assert more[i] == live[i]; }
      if r.Has(k) { assert more[|live|] == r; }
    }
  }

  lemma TakeTile(ws: seq<bv64>, ws': seq<bv64>, length: nat, live: seq<Region>, r: Region)
    requires Tiles(ws, length, live) && 0 < r.length && r.base + r.length <= length
    requires forall k :: r.base <= k < r.base + r.length ==> !At(ws, k)
    requires RangeBecame(ws, ws', r.base, r.base + r.length, true)
    ensures Tiles(ws', length, live + [r])
  {
    hide At, Held;
    HeldMore(live, r);
    var more := live + [r];
    forall i, k: nat | 0 <= i < |live| && live[i].Has(k) ensures !r.Has(k) { HeldBy(live, i, k); }
    forall i, j, k: nat | 0 <= i < |more| && 0 <= j < |more| && more[i].Has(k) && more[j].Has(k) ensures i == j {}
  }

  lemma HeldBy(live: seq<Region>, i: nat, k: nat)
    requires i < |live| && live[i].Has(k)
    ensures Held(live, k)
  {}

  // ---- what a release leaves --------------------------------------------------------------------------

  function Span(from: nat, to: nat): seq<Region> { if from < to then [Region(from, to - from)] else [] }

  function Min(a: nat, b: nat): nat { if a < b then a else b }

  function Max(a: nat, b: nat): nat { if a < b then b else a }

  /** The parts of x before and behind r. */
  function Outside(x: Region, r: Region): seq<Region> {
    Span(x.base, Min(x.base + x.length, r.base)) + Span(Max(x.base, r.base + r.length), x.base + x.length)
  }

  ghost function Cut(live: seq<Region>, r: Region): seq<Region> {
    if live == [] then [] else Cut(live[..|live| - 1], r) + Outside(live[|live| - 1], r)
  }

  lemma OutsideHas(x: Region, r: Region, k: nat)
    ensures Held(Outside(x, r), k) <==> x.Has(k) && !r.Has(k)
  {
    var s := Outside(x, r);
    if x.Has(k) && !r.Has(k) { assert s[if k < r.base then 0 else |s| - 1].Has(k); }
  }

  /** Ranges that share no port do not cut each other. */
  lemma OutsideAll(x: Region, r: Region)
    requires 0 < x.length && 0 < r.length && forall k: nat :: !(x.Has(k) && r.Has(k))
    ensures Outside(x, r) == [x]
  {
    var k := Max(x.base, r.base);
    assert !(x.Has(k) && r.Has(k));
  }

  lemma HeldBoth(a: seq<Region>, b: seq<Region>, k: nat)
    ensures Held(a + b, k) <==> Held(a, k) || Held(b, k)
  {
    hide Region.Has;
    var c := a + b;
    if Held(a, k) { var i :| 0 <= i < |a| && a[i].Has(k); assert c[i] == a[i]; }
    if Held(b, k) { var i :| 0 <= i < |b| && b[i].Has(k); assert c[|a| + i] == b[i]; }
  }

  /** Exactly the ports of r leave. */
  lemma {:induction false} CutHas(live: seq<Region>, r: Region, k: nat)
    ensures Held(Cut(live, r), k) <==> Held(live, k) && !r.Has(k)
  {
    hide Region.Has, Held, Outside;
    if live == [] {
      NothingHeld(k);
    } else {
      var n := |live| - 1;
      CutHas(live[..n], r, k);
      OutsideHas(live[n], r, k);
      HeldBoth(Cut(live[..n], r), Outside(live[n], r), k);
      assert live == live[..n] + [live[n]];
      HeldMore(live[..n], live[n]);
    }
  }

  lemma NothingHeld(k: nat)
    ensures !Held([], k)
  {}

  lemma ApartMore(a: seq<Region>, b: seq<Region>)
    requires Apart(a) && Apart(b) && forall k: nat :: !(Held(a, k) && Held(b, k))
    ensures Apart(a + b)
  {
    hide Region.Has;
    var c := a + b;
    forall i, j, k: nat | 0 <= i <= j < |c| && c[i].Has(k) && c[j].Has(k) ensures i == j {
      assert if i < |a| then a[i].Has(k) else b[i - |a|].Has(k);
      assert if j < |a| then a[j].Has(k) else b[j - |a|].Has(k);
      assert i < |a| ==> Held(a, k);
      assert j >= |a| ==> Held(b, k);
    }
  }

  lemma {:induction false} CutApart(live: seq<Region>, r: Region, length: nat)
    requires Apart(live) && Bounded(live, length)
    ensures Apart(Cut(live, r)) && Bounded(Cut(live, r), length)
  {
    hide Held, Outside, Region.Has;
    if live == [] {
    } else {
      var n := |live| - 1;
      var init, last := live[..n], live[n];
      assert Apart(init) && Bounded(init, length);
      CutApart(init, r, length);
      OutsideApart(last, r, length);
      forall k: nat ensures !(Held(Cut(init, r), k) && Held(Outside(last, r), k)) {
        CutHas(init, r, k);
        OutsideHas(last, r, k);
        HeldApart(live, k);
      }
      ApartMore(Cut(init, r), Outside(last, r));
    }
  }

  lemma OutsideApart(x: Region, r: Region, length: nat)
    requires x.base + x.length <= length
    ensures Apart(Outside(x, r)) && Bounded(Outside(x, r), length)
  {}

  lemma HeldApart(live: seq<Region>, k: nat)
    requires Apart(live) && live != []
    ensures !(Held(live[..|live| - 1], k) && live[|live| - 1].Has(k))
  {
    var init := live[..|live| - 1];
    if Held(init, k) { var i :| 0 <= i < |init| && init[i].Has(k); assert live[i] == init[i]; }
  }

  lemma GiveTile(ws: seq<bv64>, ws': seq<bv64>, length: nat, live: seq<Region>, r: Region)
    requires Tiles(ws, length, live) && RangeBecame(ws, ws', r.base, r.base + r.length, false)
    ensures Tiles(ws', length, Cut(live, r))
  {
    hide At, Held, Apart, Bounded, Cut;
    CutApart(live, r, length);
    forall k: nat | k < length ensures At(ws', k) <==> Held(Cut(live, r), k) { CutHas(live, r, k); }
  }

  ghost function Without(live: seq<Region>, i: nat): seq<Region>
    requires i < |live|
  {
    live[..i] + live[i + 1..]
  }

  /** Releasing a range that was reserved as one piece takes that range out and leaves the others as they are. */
  lemma {:induction false} CutOne(live: seq<Region>, i: nat, length: nat)
    requires i < |live| && Apart(live) && Bounded(live, length)
    ensures Cut(live, live[i]) == Without(live, i)
  {
    hide Region.Has, Outside;
    var n, r := |live| - 1, live[i];
    var init := live[..n];
    assert Bounded(init, length);
    if i == n {
      forall j, k: nat | 0 <= j < |init| && init[j].Has(k) ensures !r.Has(k) { assert init[j] == live[j]; }
      CutNone(init, r, length);
      OutsideSelf(r);
      assert Without(live, i) == init;
    } else {
      assert Apart(init);
      CutOne(init, i, length);
      forall k: nat ensures !(live[n].Has(k) && r.Has(k)) {}
      OutsideAll(live[n], r);
      assert Without(live, i) == Without(init, i) + [live[n]];
    }
  }

  lemma OutsideSelf(r: Region)
    ensures Outside(r, r) == []
  {}

  lemma {:induction false} CutNone(live: seq<Region>, r: Region, length: nat)
    requires Bounded(live, length) && 0 < r.length && forall i, k: nat :: 0 <= i < |live| && live[i].Has(k) ==> !r.Has(k)
    ensures Cut(live, r) == live
  {
    if live == [] {
    } else {
      var n := |live| - 1;
      CutNone(live[..n], r, length);
      OutsideAll(live[n], r);
      assert live == live[..n] + [live[n]];
    }
  }

  class PortMap {
    const ports: Bitmap
    ghost var live: seq<Region>

    ghost predicate Valid()
      reads this, ports, ports.buffer
    {
      ports.Valid() && ports.HintOk() && ports.firstZeroIdx <= ports.length && Tiles(ports.buffer[..], ports.length, live)
    }

    /** All ports are free at first. */
    constructor (bits: nat)
      ensures Valid() && live == [] && ports.length == bits && fresh(ports) && fresh(ports.buffer)
    {
      var words := new bv64[(bits + 63) / 64](_ => 0);
      ports := new Bitmap(words, bits);
      live := [];
      new;
      forall k: nat | k < bits ensures !At(ports.buffer[..], k) { NoBits(ports.buffer[..], k); }
    }

    /** port_reserve: the lowest aligned base in [minBase, maxBase] with all its ports free, if there is one. */
    method Reserve(minBase: nat, maxBase: nat, alignment: nat, length: nat) returns (r: Option<nat>)
      requires Valid() && ports.length + alignment < WORD_LIMIT
      modifies this, ports, ports.buffer
      ensures Valid()
      ensures r.None? ==>
        && live == old(live)
        && (0 < length && minBase <= maxBase && maxBase + length <= ports.length ==>
          NoFit(old(ports.buffer[..]), minBase, maxBase + length, length, alignment))
      ensures r.Some? ==>
        && live == old(live) + [Region(r.value, length)] && r.value <= maxBase
        && Fits(old(ports.buffer[..]), minBase, maxBase + length, length, alignment, r.value)
        && PassedBy(old(ports.buffer[..]), minBase, maxBase + length, length, alignment, r.value)
    {
      hide Tiles, At;
      if length == 0 || minBase > maxBase { return None; }
      if maxBase + length > ports.length { return None; }
      var base := ports.FindClearRegionAndSet(minBase, maxBase + length, length, alignment);
      if base == ports.length { return None; }
      TakeTile(old(ports.buffer[..]), ports.buffer[..], ports.length, live, Region(base, length));
      live := live + [Region(base, length)];
      return Some(base);
    }

    /** port_release, of any range of ports. */
    method Release(base: nat, length: nat)
      requires Valid()
      modifies this, ports, ports.buffer
      ensures Valid()
      ensures live ==
        if length == 0 || base + length > ports.length then old(live) else Cut(old(live), Region(base, length))
    {
      hide At, Tiles, Cut;
      if length == 0 || base + length > ports.length { return; }
      ports.ClearRange(base, base + length);
      GiveTile(old(ports.buffer[..]), ports.buffer[..], ports.length, live, Region(base, length));
      live := Cut(live, Region(base, length));
    }
  }
}
