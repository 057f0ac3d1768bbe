/** The intrusive doubly linked list of include/sys/list.h, in sequential use. */
module IntrusiveList {
  import opened Common

  class Entry {
    var prev: Entry
    var next: Entry

    constructor ()
      ensures next == this && prev == this
    {
      next, prev := this, this;
    }
  }

  /** The neighbours of position i on the ring s. */
  ghost function Follow(s: seq<Entry>, i: nat): Entry
    requires i < |s|
  {
    if i + 1 < |s| then s[i + 1] else s[0]
  }

  ghost function Lead(s: seq<Entry>, i: nat): Entry
    requires i < |s|
  {
    if i > 0 then s[i - 1] else s[|s| - 1]
  }

  /** The entries of s form a ring in that order, each pointing to its neighbours on both sides. */
  ghost predicate Ring(s: seq<Entry>)
    reads s
  {
    |s| > 0 && Distinct(s) && forall i :: 0 <= i < |s| ==> s[i].next == Follow(s, i) && s[i].prev == Lead(s, i)
  }

  /** An entry by itself. */
  ghost predicate Loose(e: Entry)
    reads e
  {
    e.next == e && e.prev == e
  }

  ghost function Inserted(s: seq<Entry>, i: nat, e: Entry): seq<Entry>
    requires i < |s|
  {
    s[..i + 1] + [e] + s[i + 1..]
  }

  ghost function Without(s: seq<Entry>, i: nat): seq<Entry>
    requires i < |s|
  {
    s[..i] + s[i + 1..]
  }

  /** list_add: entry goes between the neighbours prev and next. */
  method Add(prev: Entry, next: Entry, entry: Entry, ghost s: seq<Entry>, ghost i: nat)
    requires Ring(s) && i < |s| && prev == s[i] && next == prev.next
    requires entry !in s && Loose(entry)
    modifies prev`next, next`prev, entry
    ensures Ring(Inserted(s, i, entry))
  {
    hide Follow, Lead, Inserted;
    assert next == Follow(s, i);
    next.prev := entry;
    entry.next := next;
    entry.prev := prev;
    prev.next := entry;
    ghost var t := Inserted(s, i, entry);
    InsertedNew(s, i, entry);
    forall j | 0 <= j < |t| ensures t[j].next == Follow(t, j) && t[j].prev == Lead(t, j) {
      if j != i + 1 { InsertedOld(s, i, entry, if j <= i then j else j - 1); }
    }
  }

  lemma InsertedNew(s: seq<Entry>, i: nat, e: Entry)
    requires i < |s| && Distinct(s) && e !in s
    ensures var t := Inserted(s, i, e);
      |t| == |s| + 1 && t[i + 1] == e && Follow(t, i + 1) == Follow(s, i) && Lead(t, i + 1) == s[i] && Distinct(t)
  {}

  /** Where an old entry goes, and how its neighbours change. */
  lemma InsertedOld(s: seq<Entry>, i: nat, e: Entry, k: nat)
    requires i < |s| && k < |s| && Distinct(s)
    ensures var t, j := Inserted(s, i, e), if k <= i then k else k + 1;
      && t[j] == s[k] && (k == i <==> s[k] == s[i])
      && Follow(t, j) == (if k == i then e else Follow(s, k))
      && Lead(t, j) == (if s[k] == Follow(s, i) then e else Lead(s, k))
  {}

  /** list_remove. An entry on its own stays so. */
  method Remove(entry: Entry, ghost s: seq<Entry>, ghost i: nat)
    requires Ring(s) && i < |s| && entry == s[i]
    modifies entry.prev`next, entry.next`prev, entry
    ensures Loose(entry) && entry !in Without(s, i) && (|s| > 1 ==> Ring(Without(s, i)))
  {
    hide Follow, Lead, Without;
    RingAt(s, i);
    assert entry.next == Follow(s, i) && entry.prev == Lead(s, i);
    entry.prev.next := entry.next;
    entry.next.prev := entry.prev;
    entry.next := entry;
    entry.prev := entry;
    ghost var t := Without(s, i);
    WithoutGone(s, i);
    forall j | 0 <= j < |t| ensures t[j].next == Follow(t, j) && t[j].prev == Lead(t, j) {
      WithoutOld(s, i, if j < i then j else j + 1);
    }
  }

  lemma WithoutGone(s: seq<Entry>, i: nat)
    requires i < |s| && Distinct(s)
    ensures var t := Without(s, i);
      && |t| == |s| - 1 && s[i] !in t && Distinct(t)
      && (|s| > 1 ==> Follow(s, i) != s[i] && Lead(s, i) != s[i]) && Follow(s, i) in s && Lead(s, i) in s
  {}

  /** Where a remaining entry goes, and how its neighbours change. */
  lemma WithoutOld(s: seq<Entry>, i: nat, k: nat)
    requires i < |s| && k < |s| && k != i && Distinct(s)
    ensures var t, j := Without(s, i), if k < i then k else k - 1;
      && t[j] == s[k] && s[k] != s[i]
      && Follow(t, j) == (if s[k] == Lead(s, i) then Follow(s, i) else Follow(s, k))
      && Lead(t, j) == (if s[k] == Follow(s, i) then Lead(s, i) else Lead(s, k))
  {}

  lemma RingAt(s: seq<Entry>, i: nat)
    requires Ring(s) && i < |s|
    ensures s[i].next == Follow(s, i) && s[i].prev == Lead(s, i) && s[i].next in s && s[i].prev in s
    ensures s[i].next == s[i] <==> |s| == 1
    ensures s[i].prev == s[i] <==> |s| == 1
  {}

  /** A list: the head and, as a ghost, the ring it is on, head first. */
  class List {
    const head: Entry
    ghost var ring: seq<Entry>

    ghost predicate Valid()
      reads this, ring
    {
      |ring| > 0 && Ring(ring) && ring[0] == head
    }

    /** The entries of the list in order. */
    ghost function Entries(): seq<Entry>
      requires Valid()
      reads this, ring
    {
      ring[1..]
    }

    constructor ()
      ensures Valid() && Entries() == [] && fresh(head)
    {
      var entry := new Entry();
      head, ring := entry, [entry];
    }

    method IsEmpty() returns (r: bool)
      requires Valid()
      ensures r <==> Entries() == []
    {
      hide Ring;
      RingAt(ring, 0);
      r := head.next == head;
    }

    method PushBack(entry: Entry)
      requires Valid() && entry !in ring && Loose(entry)
      modifies this`ring, ring, entry
      ensures Valid() && Entries() == old(Entries()) + [entry] && ring[..|old(ring)|] == old(ring)
    {
      hide Ring;
      RingAt(ring, 0);
      RingAt(ring, |ring| - 1);
      Add(head.prev, head, entry, ring, |ring| - 1);
      assert Inserted(ring, |ring| - 1, entry) == ring + [entry];
      ring := ring + [entry];
    }

    method PushFront(entry: Entry)
      requires Valid() && entry !in ring && Loose(entry)
      modifies this`ring, ring, entry
      ensures Valid() && Entries() == [entry] + old(Entries())
    {
      hide Ring;
      RingAt(ring, 0);
      Add(head, head.next, entry, ring, 0);
      ring := Inserted(ring, 0, entry);
    }

    /** list_append, behind the entry at position i of the ring. */
    method Append(prev: Entry, entry: Entry, ghost i: nat)
      requires Valid() && i < |ring| && prev == ring[i] && entry !in ring && Loose(entry)
      modifies this`ring, ring, entry
      ensures Valid() && ring == Inserted(old(ring), i, entry)
    {
      hide Ring;
      RingAt(ring, i);
      Add(prev, prev.next, entry, ring, i);
      ring := Inserted(ring, i, entry);
    }

    /** list_prepend, before the entry that follows position i of the ring; before the head means at the end. */
    method Prepend(next: Entry, entry: Entry, ghost i: nat)
      requires Valid() && i < |ring| && next == Follow(ring, i) && entry !in ring && Loose(entry)
      modifies this`ring, ring, entry
      ensures Valid() && ring == Inserted(old(ring), i, entry)
    {
      hide Ring;
      RingAt(ring, i);
      RingAt(ring, if i + 1 < |ring| then i + 1 else 0);
      Add(next.prev, next, entry, ring, i);
      ring := Inserted(ring, i, entry);
    }

    method RemoveEntry(entry: Entry, ghost i: nat)
      requires Valid() && 0 < i < |ring| && entry == ring[i]
      modifies this`ring, ring
      ensures Valid() && ring == Without(old(ring), i) && Loose(entry) && entry !in ring
    {
      hide Ring;
      RingAt(ring, i);
      Remove(entry, ring, i);
      ring := Without(ring, i);
    }

    method PopFront() returns (r: Entry?)
      requires Valid()
      modifies this`ring, ring
      ensures Valid()
      ensures if old(Entries()) == [] then r == null && Entries() == []
              else r == old(Entries())[0] && Loose(r) && r !in ring && Entries() == old(Entries())[1..]
    {
      hide Ring;
      RingAt(ring, 0);
      if head.next == head { return null; }
      var entry := head.next;
      RemoveEntry(entry, 1);
      return entry;
    }

    method PopBack() returns (r: Entry?)
      requires Valid()
      modifies this`ring, ring
      ensures Valid()
      ensures if old(Entries()) == [] then r == null && Entries() == []
              else
                var last := |old(Entries())| - 1;
                r == old(Entries())[last] && Loose(r) && r !in ring && Entries() == old(Entries())[..last]
    {
      hide Ring;
      RingAt(ring, 0);
      if head.next == head { return null; }
      var entry := head.prev;
      RemoveEntry(entry, |ring| - 1);
      return entry;
    }

    method Size() returns (size: nat)
      requires Valid()
      ensures size == |Entries()|
    {
      hide Ring;
      size := 0;
      RingAt(ring, 0);
      var entry := head.next;
      while entry != head
        invariant size < |ring| && entry == Follow(ring, size)
        decreases |ring| - size
      {
        RingDistinct(ring, size);
        size := size + 1;
        RingAt(ring, size);
        entry := entry.next;
      }
      RingDistinct(ring, size);
    }
  }

  lemma RingDistinct(s: seq<Entry>, i: nat)
    requires Ring(s) && i < |s|
    ensures Follow(s, i) == s[0] <==> i + 1 == |s|
  {}

  /** list_entry_in_list: true just for an entry that shares its ring with another. */
  method InList(entry: Entry, ghost s: seq<Entry>) returns (r: bool)
    requires Ring(s) && entry in s
    ensures r <==> |s| > 1
  {
    hide Ring;
    ghost var i :| 0 <= i < |s| && s[i] == entry;
    RingAt(s, i);
    r := entry.next != entry && entry.prev != entry;
  }

  ghost predicate Apart(a: List, b: List)
    reads a, b
  {
    a != b && forall e :: e in a.ring ==> e !in b.ring
  }

  /** A ring none of whose entries is written to stays as it is. */
  twostate lemma RingKept(s: seq<Entry>)
    requires old(Ring(s)) && forall e :: e in s ==> unchanged(e)
    ensures Ring(s)
  {
    forall i | 0 <= i < |s| ensures s[i].next == Follow(s, i) && s[i].prev == Lead(s, i) {
      assert s[i] in s && old(s[i].next) == Follow(s, i) && old(s[i].prev) == Lead(s, i);
    }
  }

  /** Moving the first entry of one list to the end of another leaves the rest of both alone. */
  method Transfer(a: List, b: List) returns (moved: bool)
    requires a.Valid() && b.Valid() && Apart(a, b)
    modifies a`ring, b`ring, a.ring, b.ring
    ensures a.Valid() && b.Valid() && Apart(a, b)
    ensures moved <==> old(a.Entries()) != []
    ensures moved ==> a.Entries() == old(a.Entries())[1..] && b.Entries() == old(b.Entries()) + [old(a.Entries())[0]]
    ensures !moved ==> a.ring == old(a.ring) && b.ring == old(b.ring)
  {
    hide Ring;
    ghost var ra, rb := a.ring, b.ring;
    var entry := a.PopFront();
    RingKept(rb);
    assert a.ring == [a.head] + a.Entries() && ra == [a.head] + ra[1..];
    if entry == null { return false; }
    assert a.ring == [ra[0]] + ra[2..];
    assert forall e :: e in a.ring ==> e in ra;
    label Popped:
    b.PushBack(entry);
    assert b.ring == [b.head] + b.Entries() && rb == [b.head] + rb[1..];
    RingKept@Popped(a.ring);
    return true;
  }
}
