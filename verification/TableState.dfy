/** The structural invariant of a page table and the two changes its memory ever sees, on values. */
module TableState {
  import opened Common
  import opened PageTree

  /** Proof-only view: where each level page sits. */
  datatype Tree = Tree(shape: map<Node, Pfn>, place: map<Pfn, Node>)

  ghost predicate Sound(mem: Memory, root: Pfn, pool: set<Pfn>, t: Tree) {
    && WellFormed(mem, root, t.shape, t.place)
    && t.place.Keys !! pool
  }

  /** Levels were added, out of the pool, and none moved. */
  ghost predicate Extends(t: Tree, pool: set<Pfn>, t': Tree, pool': set<Pfn>) {
    && (forall n :: n in t.shape ==> n in t'.shape && t'.shape[n] == t.shape[n])
    && t'.place.Keys + pool' == t.place.Keys + pool
  }

  lemma ExtendsSelf(t: Tree, pool: set<Pfn>)
    ensures Extends(t, pool, t, pool)
  {}

  lemma ExtendsTrans(t1: Tree, p1: set<Pfn>, t2: Tree, p2: set<Pfn>, t3: Tree, p3: set<Pfn>)
    requires Extends(t1, p1, t2, p2) && Extends(t2, p2, t3, p3)
    ensures Extends(t1, p1, t3, p3)
  {}

  // ---- a new level --------------------------------------------------------------------------

  function LevelEntry(flags: Flags, q: Pfn): Entry { Entry(flags, false, 0, q, 0) }

  function GrowMem(mem: Memory, p: Pfn, i: Index, flags: Flags, q: Pfn): Memory
    requires p in mem
  {
    mem[q := EmptyPml()][p := mem[p][i := LevelEntry(flags, q)]]
  }

  ghost function GrowTree(t: Tree, p: Pfn, i: Index, q: Pfn): Tree
    requires p in t.place && !t.place[p].L1?
  {
    Tree(t.shape[t.place[p].Child(i) := q], t.place[q := t.place[p].Child(i)])
  }

  lemma GrowSound(mem: Memory, root: Pfn, pool: set<Pfn>, t: Tree, p: Pfn, i: Index, flags: Flags, q: Pfn)
    requires Sound(mem, root, pool, t)
    requires p in t.place && !t.place[p].L1? && !mem[p][i].Present() && q in pool
    requires flags.present && Permissive(t.place[p].Level(), flags)
    ensures var mem', t' := GrowMem(mem, p, i, flags, q), GrowTree(t, p, i, q);
      && Sound(mem', root, pool - {q}, t')
      && Flat(mem', root) == Flat(mem, root)
      && Extends(t, pool, t', pool - {q})
      && t.place[p].Child(i) !in t.shape
      && p in mem' && mem'[p][i] == Entry(flags, false, 0, q, 0)
  {
    var n := t.place[p];
    assert Linked(mem, t.shape, n);
    LinkLevel(mem, root, t.shape, t.place, n, i, LevelEntry(flags, q), q);
    assert GrowTree(t, p, i, q).place.Keys == t.place.Keys + {q};
  }

  // ---- a leaf entry is rewritten ----------------------------------------------------------------

  function StoreMem(mem: Memory, p: Pfn, i: Index, e: Entry): Memory
    requires p in mem
  {
    mem[p := mem[p][i := e]]
  }

  lemma StoreSound(mem: Memory, root: Pfn, pool: set<Pfn>, t: Tree, v: Vpn, p: Pfn, e: Entry)
    requires Sound(mem, root, pool, t) && Resolve(mem, root, LeafNode(v)) == Some(p)
    ensures p in mem && Flat(mem, root)[v] == mem[p][v % INDEX_AMOUNT]
    ensures var mem' := StoreMem(mem, p, v % INDEX_AMOUNT, e);
      && Sound(mem', root, pool, t)
      && Flat(mem', root) == Flat(mem, root)[v := e]
  {
    ResolveIsShape(mem, root, t.shape, t.place, LeafNode(v));
    StoreLeaf(mem, root, t.shape, t.place, v, e);
  }

  /** A present upper entry leads to the level below it in the tree, and an absent one to none. */
  lemma LinkedAt(mem: Memory, root: Pfn, pool: set<Pfn>, t: Tree, p: Pfn, i: Index)
    requires Sound(mem, root, pool, t) && p in t.place && !t.place[p].L1?
    ensures p in mem && p !in pool
    ensures var e := mem[p][i]; var c := t.place[p].Child(i);
      && (e.Present() <==> c in t.shape)
      && (e.Present() ==> t.shape[c] == e.pfn)
  {
    assert Linked(mem, t.shape, t.place[p]);
  }

  lemma SoundKeys(mem: Memory, root: Pfn, pool: set<Pfn>, t: Tree)
    requires Sound(mem, root, pool, t)
    ensures mem.Keys == t.place.Keys
  {}

  // ---- counting levels --------------------------------------------------------------------------------

  lemma {:induction false} SameCount(shape: map<Node, Pfn>, place: map<Pfn, Node>)
    requires Bijective(shape, place)
    ensures |shape.Keys| == |place.Keys|
    decreases |shape.Keys|
  {
    if shape == map[] {
      assert place == map[];
    } else {
      var n :| n in shape;
      var p := shape[n];
      SameCount(shape - {n}, place - {p});
      assert (shape - {n}).Keys == shape.Keys - {n} && (place - {p}).Keys == place.Keys - {p};
    }
  }

  lemma Placed(mem: Memory, root: Pfn, pool: set<Pfn>, t: Tree)
    requires Sound(mem, root, pool, t)
    ensures Bijective(t.shape, t.place)
  {}

  lemma FewLevels(mem: Memory, root: Pfn, pool: set<Pfn>, t: Tree, nodes: set<Node>)
    requires Sound(mem, root, pool, t) && t.shape.Keys <= nodes
    ensures |t.place.Keys| <= |nodes|
  {
    hide Sound;
    Placed(mem, root, pool, t);
    SameCount(t.shape, t.place);
    SubsetSize(t.shape.Keys, nodes);
  }
}
