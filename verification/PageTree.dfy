/** Entries, levels and the plain four-level walk (include/kernel/mem/paging_types.h). */
module PageTree {
  import opened Common
  import opened Rounding

  const INDEX_AMOUNT := 512
  const PFN_LIMIT := 0x100_0000_0000        // 40-bit frame field
  const PAGE_LIMIT := 0x10_0000_0000        // 36-bit virtual page numbers

  type Pfn = p: nat | p < PFN_LIMIT
  type Vpn = v: nat | v < PAGE_LIMIT
  type Index = i: nat | i < INDEX_AMOUNT

  datatype Flags = Flags(
    present: bool, write: bool, user: bool, writeThrough: bool, cacheDisabled: bool, accessed: bool,
    dirty: bool, size: bool, global: bool, owned: bool, noExecute: bool)

  const NONE := Flags(false, false, false, false, false, false, false, false, false, false, false)

  datatype Entry = Entry(flags: Flags, pinned: bool, lowCallbackId: nat, pfn: Pfn, highCallbackId: nat)
  {
    predicate Present() { flags.present }
    predicate Owned() { flags.owned }
  }

  const ZERO := Entry(NONE, false, 0, 0, 0)

  type Pml = s: seq<Entry> | |s| == INDEX_AMOUNT witness seq(INDEX_AMOUNT, _ => ZERO)

  /** A page zeroed by memset. */
  function EmptyPml(): (s: Pml)
    ensures forall i: Index :: s[i] == ZERO
  {
    seq(INDEX_AMOUNT, _ => ZERO)
  }

  type Memory = map<Pfn, Pml>

  /** A place in the radix tree, named by the indexes leading to it: L4 is the root, L1 a lowest-level table. */
  datatype Node = L4 | L3(i4: Index) | L2(i4: Index, i3: Index) | L1(i4: Index, i3: Index, i2: Index)
  {
    function Level(): nat {
      match this case L4 => 4 case L3(_) => 3 case L2(_, _) => 2 case L1(_, _, _) => 1
    }

    function Parent(): Node
      requires !L4?
    {
      match this case L3(_) => L4 case L2(a, _) => L3(a) case L1(a, b, _) => L2(a, b)
    }

    function Slot(): Index
      requires !L4?
    {
      match this case L3(a) => a case L2(_, b) => b case L1(_, _, c) => c
    }

    function Child(i: Index): Node
      requires !L1?
    {
      match this case L4 => L3(i) case L3(a) => L2(a, i) case L2(a, b) => L1(a, b, i)
    }
  }

  /** The plain walk from the root to a node, following present entries. */
  function Resolve(mem: Memory, root: Pfn, n: Node): Option<Pfn>
    decreases 4 - n.Level()
  {
    if n.L4? then Some(root)
    else match Resolve(mem, root, n.Parent())
      case None => None
      case Some(p) =>
        if p in mem && mem[p][n.Slot()].Present() then Some(mem[p][n.Slot()].pfn) else None
  }

  function LeafNode(v: Vpn): Node { L1(v / 0x800_0000, v / 0x4_0000 % 512, v / 512 % 512) }

  lemma Recompose(v: Vpn)
    ensures var n := LeafNode(v); v == 0x800_0000 * n.i4 + 0x4_0000 * n.i3 + 512 * n.i2 + v % 512
  {
    DivDiv(v, 512, 512);
    DivDiv(v, 0x4_0000, 512);
    var a, b := v / 512, v / 0x4_0000;
    assert v == 512 * a + v % 512 && a == 512 * b + a % 512 && b == 512 * (v / 0x800_0000) + b % 512;
  }

  lemma LeafUnique(u: Vpn, v: Vpn)
    ensures LeafNode(u) == LeafNode(v) && u % INDEX_AMOUNT == v % INDEX_AMOUNT <==> u == v
  {
    Recompose(u);
    Recompose(v);
  }

  /** What the walk finds for page v: the leaf entry, or an all-zero one where a level is absent. */
  function Leaf(mem: Memory, root: Pfn, v: Vpn): Entry {
    match Resolve(mem, root, LeafNode(v))
    case None => ZERO
    case Some(p) => if p in mem then mem[p][v % INDEX_AMOUNT] else ZERO
  }

  /** The flat map the tree stands for: every page number and its leaf entry. */
  type FlatMap = imap<Vpn, Entry>

  ghost function Flat(mem: Memory, root: Pfn): (f: FlatMap)
    ensures forall v: Vpn :: v in f && f[v] == Leaf(mem, root, v)
  {
    imap v: Vpn :: Leaf(mem, root, v)
  }

  // ---- the shape of the tree -------------------------------------------------------------------

  ghost predicate Bijective(shape: map<Node, Pfn>, place: map<Pfn, Node>) {
    && (forall n :: n in shape ==> shape[n] in place && place[shape[n]] == n)
    && (forall p :: p in place ==> place[p] in shape && shape[place[p]] == p)
  }

  /** Upper entries grant everything, so that the leaf alone decides access; the root level is never global. */
  predicate Permissive(level: nat, f: Flags) { f.write && f.user && (level == 4 ==> !f.global) }

  ghost predicate Linked(mem: Memory, shape: map<Node, Pfn>, n: Node)
    requires n in shape && shape[n] in mem
  {
    !n.L1? ==>
      forall i: Index {:trigger mem[shape[n]][i]} {:trigger n.Child(i)} ::
        var e := mem[shape[n]][i];
        && (e.Present() <==> n.Child(i) in shape)
        && (e.Present() ==> e.pfn == shape[n.Child(i)] && Permissive(n.Level(), e.flags))
  }

  /** Every level page sits at exactly one place, and the present upper entries are exactly the links. */
  ghost predicate WellFormed(mem: Memory, root: Pfn, shape: map<Node, Pfn>, place: map<Pfn, Node>) {
    && Bijective(shape, place)
    && mem.Keys == place.Keys
    && L4 in shape && shape[L4] == root
    && (forall n {:trigger n.Parent()} :: n in shape && !n.L4? ==> n.Parent() in shape)
    && (forall n {:trigger Linked(mem, shape, n)} :: n in shape ==> Linked(mem, shape, n))
  }

  function Lookup(shape: map<Node, Pfn>, n: Node): Option<Pfn> {
    if n in shape then Some(shape[n]) else None
  }

  lemma {:induction false} ResolveIsShape(mem: Memory, root: Pfn, shape: map<Node, Pfn>, place: map<Pfn, Node>, n: Node)
    requires WellFormed(mem, root, shape, place)
    ensures Resolve(mem, root, n) == Lookup(shape, n)
    decreases 4 - n.Level()
  {
    if n.L4? {
    } else {
      ResolveIsShape(mem, root, shape, place, n.Parent());
      assert n.Parent().Child(n.Slot()) == n;
      if n.Parent() in shape {
        assert Linked(mem, shape, n.Parent());
      }
    }
  }

  /** Storing a leaf entry keeps the shape and changes one page of the flat map. */
  lemma StoreLeaf(mem: Memory, root: Pfn, shape: map<Node, Pfn>, place: map<Pfn, Node>, v: Vpn, e: Entry)
    requires WellFormed(mem, root, shape, place)
    requires LeafNode(v) in shape
    ensures var p := shape[LeafNode(v)]; var mem' := mem[p := mem[p][v % INDEX_AMOUNT := e]];
      && WellFormed(mem', root, shape, place)
      && Flat(mem', root) == Flat(mem, root)[v := e]
  {
    var n, i := LeafNode(v), v % INDEX_AMOUNT;
    var p := shape[n]; var mem' := mem[p := mem[p][i := e]];
    forall m | m in shape ensures Linked(mem', shape, m) {
      assert Linked(mem, shape, m);
    }
    forall u: Vpn ensures Leaf(mem', root, u) == if u == v then e else Leaf(mem, root, u) {
      LeafUnique(u, v);
      ResolveIsShape(mem, root, shape, place, LeafNode(u));
      ResolveIsShape(mem', root, shape, place, LeafNode(u));
    }
  }

  /** Linking a zeroed page under an absent upper entry extends the shape and leaves the flat map alone. */
  lemma LinkLevel(mem: Memory, root: Pfn, shape: map<Node, Pfn>, place: map<Pfn, Node>, n: Node, i: Index, e: Entry, q: Pfn)
    requires WellFormed(mem, root, shape, place)
    requires n in shape && !n.L1? && !mem[shape[n]][i].Present()
    requires e.Present() && e.pfn == q && Permissive(n.Level(), e.flags) && q !in mem
    ensures var p := shape[n]; var mem' := mem[q := EmptyPml()][p := mem[p][i := e]];
      var c := n.Child(i);
      && WellFormed(mem', root, shape[c := q], place[q := c])
      && Flat(mem', root) == Flat(mem, root)
  {
    var p := shape[n]; var mem' := mem[q := EmptyPml()][p := mem[p][i := e]];
    var c := n.Child(i);
    var shape', place' := shape[c := q], place[q := c];
    assert Linked(mem, shape, n);
    assert c !in shape;
    assert c.Parent() == n && c.Slot() == i;
    forall m | m in shape' ensures Linked(mem', shape', m) {
      LinkedAfter(mem, shape, n, i, e, q, mem', m);
    }
    assert WellFormed(mem', root, shape', place');
    forall v: Vpn ensures Leaf(mem', root, v) == Leaf(mem, root, v) {
      ResolveIsShape(mem, root, shape, place, LeafNode(v));
      ResolveIsShape(mem', root, shape', place', LeafNode(v));
    }
  }

  lemma LinkedAfter(mem: Memory, shape: map<Node, Pfn>, n: Node, i: Index, e: Entry, q: Pfn, mem': Memory, m: Node)
    requires forall n :: n in shape ==> shape[n] in mem
    requires forall n {:trigger n.Parent()} :: n in shape && !n.L4? ==> n.Parent() in shape
    requires forall n, n' :: n in shape && n' in shape && shape[n] == shape[n'] ==> n == n'
    requires n in shape && !n.L1? && q !in mem && n.Child(i) !in shape
    requires e.Present() && e.pfn == q && Permissive(n.Level(), e.flags)
    requires mem' == mem[q := EmptyPml()][shape[n] := mem[shape[n]][i := e]]
    requires m == n.Child(i) || (m in shape && Linked(mem, shape, m))
    ensures Linked(mem', shape[n.Child(i) := q], m)
  {
    var c := n.Child(i);
    if !m.L1? {
      forall j: Index ensures m.Child(j).Parent() == m && m.Child(j).Slot() == j {}
      assert c.Parent() == n && c.Slot() == i;
    }
  }
}
