/** The pages a recursive teardown frees, branch by branch. */
module Teardown {
  import opened Common
  import opened PageTree
  import opened Rounding
  import opened FrameLedger
  import opened TableState

  predicate Under(m: Node, n: Node) {
    match n
    case L4 => true
    case L3(a) => !m.L4? && m.i4 == a
    case L2(a, b) => !m.L4? && !m.L3? && m.i4 == a && m.i3 == b
    case L1(_, _, _) => m == n
  }

  /** Index of the entry of n through which m is reached. */
  function Branch(m: Node, n: Node): Index
    requires Under(m, n) && m != n
  {
    match n case L4 => m.i4 case L3(_) => m.i3 case L2(_, _) => m.i2
  }

  function LeafBranch(v: Vpn, n: Node): Index
    requires Under(LeafNode(v), n)
  {
    if n.L1? then v % INDEX_AMOUNT else Branch(LeafNode(v), n)
  }

  lemma UnderChild(n: Node, i: Index)
    requires !n.L1?
    ensures forall m: Node :: Under(m, n.Child(i)) <==> Under(m, n) && m != n && Branch(m, n) == i
  {}

  lemma LeafIsL1()
    ensures forall v: Vpn :: LeafNode(v).L1?
  {}

  /** What teardown looks at: the tree as it was, its flat map and its owners. */
  datatype Snapshot = Snapshot(mem: Memory, root: Pfn, tree: Tree, owners: map<Pfn, Vpn>)
  {
    ghost predicate Valid() {
      && WellFormed(mem, root, tree.shape, tree.place)
      && Owning(Flat(mem, root), owners)
      && tree.place.Keys !! owners.Keys
    }

    ghost predicate LiveLeaf(q: Pfn, n: Node) {
      q in owners && Flat(mem, root)[owners[q]].Present() && Under(LeafNode(owners[q]), n)
    }

    /** Level pages below and at n, and the owned frames their present leaves hold. */
    ghost function Doomed(n: Node): set<Pfn>
      requires Valid()
    {
      (set q | q in tree.place && Under(tree.place[q], n)) + (set q | q in owners && LiveLeaf(q, n))
    }

    /** The part of it behind the first i entries of n. */
    ghost function DoomedBelow(n: Node, i: nat): set<Pfn>
      requires Valid()
    {
      (set q | q in tree.place && Under(tree.place[q], n) && tree.place[q] != n && Branch(tree.place[q], n) < i)
      + (set q | q in owners && LiveLeaf(q, n) && LeafBranch(owners[q], n) < i)
    }

    /** The level pages below n have not been given away yet. */
    ghost predicate Intact(n: Node, mem': Memory)
      requires Valid()
    {
      forall q :: q in tree.place && q in Doomed(n) ==> q in mem' && mem'[q] == mem[q]
    }

    ghost predicate IntactFrom(n: Node, i: nat, mem': Memory)
      requires Valid()
    {
      forall q :: q in tree.place && q in Doomed(n) && q !in DoomedBelow(n, i) ==> q in mem' && mem'[q] == mem[q]
    }

    lemma StillIntact(n: Node, i: nat, mem': Memory)
      requires Valid() && Intact(n, mem')
      ensures IntactFrom(n, i, mem' - DoomedBelow(n, i))
    {}

    lemma ScannedPage(n: Node, i: nat, mem': Memory)
      requires Valid() && n in tree.shape && IntactFrom(n, i, mem')
      ensures tree.shape[n] in mem' && mem'[tree.shape[n]] == mem[tree.shape[n]]
    {
      assert tree.shape[n] in Doomed(n) && tree.shape[n] !in DoomedBelow(n, i);
    }

    lemma ChildIntact(n: Node, i: Index, mem': Memory)
      requires Valid() && n in tree.shape && !n.L1? && n.Child(i) in tree.shape && IntactFrom(n, i, mem')
      ensures Intact(n.Child(i), mem')
    {
      DoomedBranch(n, i);
      DoomedPart(n, i);
    }

    lemma DoomedNone(n: Node)
      requires Valid()
      ensures DoomedBelow(n, 0) == {}
    {}

    lemma DoomedAll(n: Node)
      requires Valid() && n in tree.shape
      ensures Doomed(n) == DoomedBelow(n, INDEX_AMOUNT) + {tree.shape[n]}
      ensures tree.shape[n] !in DoomedBelow(n, INDEX_AMOUNT)
    {}

    lemma DoomedBranch(n: Node, i: Index)
      requires Valid() && n in tree.shape && !n.L1?
      ensures DoomedBelow(n, i + 1) == DoomedBelow(n, i) + Doomed(n.Child(i))
      ensures DoomedBelow(n, i) !! Doomed(n.Child(i)) && tree.shape[n] !in Doomed(n.Child(i))
    {
      hide LeafNode, Flat, Linked, Owning;
      UnderChild(n, i);
      LeafIsL1();
    }

    /** The first i branches are part of the whole, and never include the page being scanned. */
    lemma DoomedPart(n: Node, i: nat)
      requires Valid() && n in tree.shape && i < INDEX_AMOUNT
      ensures DoomedBelow(n, i + 1) <= Doomed(n) && DoomedBelow(n, i) <= DoomedBelow(n, i + 1)
      ensures tree.shape[n] in Doomed(n) && tree.shape[n] !in DoomedBelow(n, i)
    {}

    /** A present upper entry leads to one more branch. */
    lemma DoomedChild(n: Node, i: Index)
      requires Valid() && n in tree.shape && !n.L1? && mem[tree.shape[n]][i].Present()
      ensures n.Child(i) in tree.shape && tree.shape[n.Child(i)] == mem[tree.shape[n]][i].pfn
    {
      assert Linked(mem, tree.shape, n);
    }

    lemma {:induction false} NothingUnder(c: Node, m: Node)
      requires Valid() && c !in tree.shape && Under(m, c)
      ensures m !in tree.shape
      decreases 4 - m.Level()
    {
      if m == c {
      } else {
        NothingUnder(c, m.Parent());
      }
    }

    lemma NothingOwned(c: Node, q: Pfn)
      requires Valid() && c !in tree.shape
      ensures !LiveLeaf(q, c)
    {
      if q in owners && Under(LeafNode(owners[q]), c) {
        NothingUnder(c, LeafNode(owners[q]));
        ResolveIsShape(mem, root, tree.shape, tree.place, LeafNode(owners[q]));
      }
    }

    /** An absent upper entry hides nothing. */
    lemma DoomedSkip(n: Node, i: Index)
      requires Valid() && n in tree.shape && !n.L1? && !mem[tree.shape[n]][i].Present()
      ensures Doomed(n.Child(i)) == {}
    {
      var c := n.Child(i);
      assert Linked(mem, tree.shape, n);
      forall q | q in tree.place ensures !Under(tree.place[q], c) {
        if Under(tree.place[q], c) { NothingUnder(c, tree.place[q]); }
      }
      forall q | q in owners ensures !LiveLeaf(q, c) { NothingOwned(c, q); }
    }

    /** An absent entry, upper or leaf, frees nothing. */
    lemma DoomedAbsent(n: Node, i: Index)
      requires Valid() && n in tree.shape && !mem[tree.shape[n]][i].Present()
      ensures DoomedBelow(n, i + 1) == DoomedBelow(n, i)
    {
      if n.L1? {
        DoomedLeaf(n, i);
      } else {
        DoomedBranch(n, i);
        DoomedSkip(n, i);
      }
    }

    /** Entry i of a lowest level holds page v. */
    lemma DoomedLeaf(n: Node, i: Index)
      requires Valid() && n in tree.shape && n.L1?
      ensures var e := mem[tree.shape[n]][i]; var own := if e.Present() then OwnedFrame(e) else {};
        DoomedBelow(n, i + 1) == DoomedBelow(n, i) + own && DoomedBelow(n, i) !! own && tree.shape[n] !in own
        && own <= owners.Keys
    {
      hide Resolve, LeafNode;
      var v := PageNumber(n, i);
      PageNumberIs(n, i);
      ResolveIsShape(mem, root, tree.shape, tree.place, n);
      var e := mem[tree.shape[n]][i];
      assert Flat(mem, root)[v] == e;
      forall u: Vpn | LeafNode(u) == n && u % INDEX_AMOUNT == i ensures u == v { LeafUnique(u, v); }
    }
  }

  function PageNumber(n: Node, i: Index): Vpn
    requires n.L1?
  {
    0x800_0000 * n.i4 + 0x4_0000 * n.i3 + 512 * n.i2 + i
  }

  lemma PageNumberIs(n: Node, i: Index)
    requires n.L1?
    ensures LeafNode(PageNumber(n, i)) == n && PageNumber(n, i) % INDEX_AMOUNT == i
  {
    var v := PageNumber(n, i);
    var b := 512 * n.i4 + n.i3;
    var a := 512 * b + n.i2;
    DivUnique(v, 512, a, i);
    DivUnique(a, 512, b, n.i2);
    DivUnique(b, 512, n.i4, n.i3);
    DivDiv(v, 512, 512);
    DivDiv(v, 0x4_0000, 512);
  }
}
