/** The node array behind the physical page map: nodes are rows of entries,
    entries point to rows by index, and phys_page_set_level rewrites them in
    place.  Proved to represent the tree, row by row. */
module PhysMap {
  import opened Common
  import opened PhysTree
  import opened Slots

  /** PHYS_MAP_NODE_NIL */
  const NIL: nat := 0x7fff

  datatype Entry = Entry(isLeaf: bool, ptr: nat)

  type Nodes = seq<seq<Entry>>

  /** Entry e of the array is the root of t. */
  ghost predicate Rep(nodes: Nodes, e: Entry, t: Tree)
    decreases t
  {
    match t
    case Nil => e == Entry(false, NIL)
    case Leaf(s) => e == Entry(true, s)
    case Node(id, cs) =>
      e == Entry(false, id) && id != NIL && id < |nodes| && |nodes[id]| == |cs| &&
      forall i | 0 <= i < |cs| :: Rep(nodes, nodes[id][i], cs[i])
  }

  ghost predicate Has(t: Tree, id: int) {
    id >= 0 && t.Node? && (t.id == id || exists i | 0 <= i < |t.children| :: Has(t.children[i], id))
  }

  /** No row is reached twice. */
  ghost predicate Sep(t: Tree) {
    t.Node? ==>
      && (forall i | 0 <= i < |t.children| :: !Has(t.children[i], t.id) && Sep(t.children[i]))
      && (forall i, j, id | 0 <= i < |t.children| && 0 <= j < |t.children| && i != j && Has(t.children[i], id) :: !Has(t.children[j], id))
  }

  ghost predicate Below(t: Tree, n: nat) { forall id | Has(t, id) :: id < n }

  lemma {:induction false} RepFrame(nodes: Nodes, nodes': Nodes, e: Entry, t: Tree)
    requires Rep(nodes, e, t) && forall id | Has(t, id) && id < |nodes| :: id < |nodes'| && nodes'[id] == nodes[id]
    ensures Rep(nodes', e, t)
    decreases t
  {
    if t.Node? {
      assert Has(t, t.id);
      forall i | 0 <= i < |t.children|
        ensures Rep(nodes', nodes'[t.id][i], t.children[i])
      {
        assert forall id | Has(t.children[i], id) :: Has(t, id);
        RepFrame(nodes, nodes', nodes[t.id][i], t.children[i]);
      }
    }
  }

  // ---- one slot of a row

  /** What a change to slot i may touch: rows of the old subtree and new ones. */
  ghost predicate Touches(nodes: Nodes, nodes': Nodes, t: Tree, n: nat) {
    |nodes'| == |nodes| && forall id | 0 <= id < n && id < |nodes| && !Has(t, id) :: nodes'[id] == nodes[id]
  }

  ghost predicate GrownFrom(t: Tree, t': Tree, n: nat, n': nat) {
    n <= n' && forall id | Has(t', id) :: Has(t, id) || n <= id < n'
  }

  /** Storing the new entry of slot i in its row. */
  function Written(nodes: Nodes, id: nat, i: nat, e: Entry): Nodes
    requires id < |nodes| && i < |nodes[id]|
  {
    nodes[id := nodes[id][i := e]]
  }

  lemma SlotRep(nodes: Nodes, nodes1: Nodes, id: nat, cs: seq<Tree>, i: nat, e1: Entry, t1: Tree, n: nat, n1: nat)
    requires Rep(nodes, Entry(false, id), Node(id, cs)) && Sep(Node(id, cs)) && Below(Node(id, cs), n) && i < |cs|
    requires Touches(nodes, nodes1, cs[i], n) && Rep(nodes1, e1, t1) && GrownFrom(cs[i], t1, n, n1)
    ensures id < |nodes1| && nodes1[id] == nodes[id] && Rep(Written(nodes1, id, i, e1), Entry(false, id), Node(id, cs[i := t1]))
  {
    var t := Node(id, cs);
    assert Has(t, id) && !Has(cs[i], id);
    var nodes2 := Written(nodes1, id, i, e1);
    forall j | 0 <= j < |cs|
      ensures Rep(nodes2, nodes2[id][j], cs[i := t1][j])
    {
      if j == i {
        assert !Has(t1, id);
        RepFrame(nodes1, nodes2, e1, t1);
      } else {
        forall x | Has(cs[j], x) && x < |nodes|
          ensures nodes2[x] == nodes[x]
        {
          assert Has(t, x) && !Has(cs[i], x) && x != id;
        }
        RepFrame(nodes, nodes2, nodes[id][j], cs[j]);
      }
    }
  }

  lemma SlotSep(id: nat, cs: seq<Tree>, i: nat, t1: Tree, n: nat, n1: nat)
    requires Sep(Node(id, cs)) && Below(Node(id, cs), n) && i < |cs| && Sep(t1) && GrownFrom(cs[i], t1, n, n1)
    ensures Sep(Node(id, cs[i := t1])) && GrownFrom(Node(id, cs), Node(id, cs[i := t1]), n, n1) && Below(Node(id, cs[i := t1]), n1)
  {
    var t, cs' := Node(id, cs), cs[i := t1];
    var t' := Node(id, cs');
    assert Has(t, id);
    assert forall j, x | 0 <= j < |cs| && Has(cs[j], x) :: Has(t, x);
    forall x | Has(t', x)
      ensures Has(t, x) || n <= x < n1
    {
      if x != id {
        var j :| 0 <= j < |cs'| && Has(cs'[j], x);
        assert j != i ==> Has(cs[j], x);
        assert j == i ==> Has(t1, x);
      }
    }
    forall j, k, x | 0 <= j < |cs'| && 0 <= k < |cs'| && j != k && Has(cs'[j], x)
      ensures !Has(cs'[k], x)
    {
      if j == i {
        assert Has(t1, x) && cs'[k] == cs[k];
        assert Has(cs[k], x) ==> Has(t, x);
      } else {
        assert Has(cs[j], x) && Has(t, x);
        assert k == i ==> !Has(cs[i], x);
      }
    }
    forall j | 0 <= j < |cs'|
      ensures !Has(cs'[j], id) && Sep(cs'[j])
    {
      if j == i {
        assert !Has(t1, id);
      }
    }
  }

  lemma TouchesOn(n0: Nodes, n1: Nodes, n2: Nodes, t: Tree, t1: Tree, b0: nat, b1: nat)
    requires Touches(n0, n1, t, b0) && GrownFrom(t, t1, b0, b1) && Touches(n1, n2, t1, b1)
    ensures Touches(n0, n2, t, b0)
  {
  }

  lemma GrowsOn(t0: Tree, t1: Tree, t2: Tree, b0: nat, b1: nat, b2: nat)
    requires GrownFrom(t0, t1, b0, b1) && GrownFrom(t1, t2, b1, b2)
    ensures GrownFrom(t0, t2, b0, b2)
  {
  }

  // ---- absolute page numbers

  lemma Reassociate(k: nat, fan: nat, a: nat, i: nat)
    ensures k * (fan * a) + i * a == (k * fan + i) * a
  {
  }

  /** Slot and offset of a page number, by shifting and masking. */
  lemma Position(k: nat, fan: nat, h: nat, i: nat, r: nat)
    requires fan > 0 && h > 0 && i < fan && r < Size(fan, h - 1)
    ensures var a := Size(fan, h - 1);
      var index := k * Size(fan, h) + Edge(i, a) + r;
      k * Size(fan, h) + Edge(i, a) == (k * fan + i) * a && index % a == r && index / a % fan == i
  {
    var a := Size(fan, h - 1);
    Reassociate(k, fan, a, i);
    PositionAt(k * fan + i, a, r);
    MultipleUnique(fan, k, k * fan + i);
  }

  lemma PositionAt(slot: nat, a: nat, r: nat)
    requires r < a
    ensures (slot * a + r) % a == r && (slot * a + r) / a == slot
  {
    MultipleUnique(a, slot, slot * a + r);
    SlotUnique(slot * a + r, slot, a);
  }

  /** The first page of the k-th subtree of height h. */
  function Base(k: nat, fan: nat, h: nat): nat { k * Size(fan, h) }

  /** What the test in the loop decides for slot i. */
  lemma SlotChoice(c: Tree, k: nat, fan: nat, h: nat, i: nat, lo: nat, hi: nat)
    requires fan > 0 && h > 0 && i < fan && CanSetSlot(c, i, fan, h, lo, hi)
    requires var a := Size(fan, h - 1); Edge(i, a) < hi && lo < Edge(i, a) + a
    ensures var a := Size(fan, h - 1);
      var e := Edge(i, a);
      var index := Base(k, fan, h) + Max(lo, e);
      var inside := lo <= e && e + a <= hi;
      && a > 0 && Base(k * fan + i, fan, h - 1) == Base(k, fan, h) + e
      && (index % a == 0 && Base(k, fan, h) + hi - index >= a <==> inside)
      && (!inside ==> h > 1 && CanSet(c, fan, h - 1, Max(lo - e, 0), hi - e))
  {
    var a := Size(fan, h - 1);
    Position(k, fan, h, i, Max(lo - Edge(i, a), 0));
    hide Size, Edge, Splittable, WellFormed;
  }

  lemma ChildRep(nodes: Nodes, id: nat, cs: seq<Tree>, i: nat, n: nat)
    requires Rep(nodes, Entry(false, id), Node(id, cs)) && Sep(Node(id, cs)) && Below(Node(id, cs), n) && i < |cs|
    ensures id < |nodes| && i < |nodes[id]| && Rep(nodes, nodes[id][i], cs[i]) && Sep(cs[i]) && Below(cs[i], n)
    ensures Touches(nodes, nodes, cs[i], n)
  {
    assert forall x | Has(cs[i], x) :: Has(Node(id, cs), x);
  }

  /** The slot's own changes, written back, are changes of the node. */
  lemma SlotTouches(nodes: Nodes, nodes1: Nodes, id: nat, cs: seq<Tree>, i: nat, e1: Entry, n: nat)
    requires i < |cs| && Touches(nodes, nodes1, cs[i], n) && id < |nodes1| && i < |nodes1[id]|
    ensures Touches(nodes, Written(nodes1, id, i, e1), Node(id, cs), n)
  {
    assert Has(Node(id, cs), id);
    assert forall x | Has(cs[i], x) :: Has(Node(id, cs), x);
  }

  lemma LeafRep(nodes: Nodes, leaf: nat, t: Tree, n: nat)
    ensures Rep(nodes, Entry(true, leaf), Leaf(leaf)) && Sep(Leaf(leaf)) && GrownFrom(t, Leaf(leaf), n, n)
  {
  }

  class PhysPageMap {
    const fan: nat                  // L2_SIZE
    const levels: nat               // P_L2_LEVELS
    var nodes: Nodes                // the rows; its length is nodes_nb_alloc
    var nodesNb: nat                // nodes_nb
    var root: Entry                 // phys_map
    ghost var tree: Tree

    ghost predicate Valid()
      reads this
    {
      && fan > 0 && levels > 0 && nodesNb <= |nodes|
      && Rep(nodes, root, tree) && Sep(tree) && Below(tree, nodesNb)
      && !tree.Leaf? && WellFormed(tree, fan, levels) && LeavesAssigned(tree, levels)
    }

    /** What the map maps page q to. */
    ghost function Mapping(q: nat): nat
      reads this
      requires fan > 0
    {
      At(tree, fan, levels, q)
    }

    constructor (fan: nat, levels: nat)
      requires fan > 0 && levels > 0
      ensures Valid() && this.fan == fan && this.levels == levels && tree == Nil && nodesNb == 0
    {
      this.fan, this.levels, nodes, nodesNb, root, tree := fan, levels, [], 0, Entry(false, NIL), Nil;
    }

    /** phys_map_nodes_reset, as mem_begin uses it */
    method Reset()
      requires Valid()
      modifies this
      ensures Valid() && tree == Nil && nodesNb == 0
    {
      nodesNb, root, tree := 0, Entry(false, NIL), Nil;
    }

    /** phys_map_node_reserve */
    method Reserve(n: nat)
      requires Valid()
      modifies this`nodes
      ensures Valid() && nodesNb + n <= |nodes|
      ensures if nodesNb + n <= old(|nodes|) then nodes == old(nodes) else |nodes| >= 16 && |nodes| >= 2 * old(|nodes|)
    {
      if nodesNb + n > |nodes| {
        var alloc := Max(Max(|nodes| * 2, 16), nodesNb + n);
        ghost var before := nodes;
        nodes := nodes + seq(alloc - |nodes|, _ => []);
        RepFrame(before, nodes, root, tree);
      }
    }

    /** phys_map_node_alloc, and the initial leaves of a bottom node */
    method Alloc(level: nat) returns (id: nat)
      requires fan > 0 && nodesNb < |nodes| && nodesNb < NIL
      modifies this`nodes, this`nodesNb
      ensures id == old(nodesNb) && nodesNb == id + 1 && |nodes| == old(|nodes|)
      ensures forall x | 0 <= x < |nodes| && x != id :: nodes[x] == old(nodes)[x]
      ensures Rep(nodes, Entry(false, id), Blank(id, fan, level + 1))
    {
      id := nodesNb;
      nodesNb := nodesNb + 1;
      var row := seq(fan, _ => Entry(false, NIL));
      if level == 0 {
        row := seq(fan, _ => Entry(true, UNASSIGNED));
      }
      nodes := nodes[id := row];
    }

    /** One round of the loop in phys_page_set_level: slot i becomes a leaf if
        the range covers it from here, and is descended into otherwise. */
    method SetSlot(id: nat, i: nat, index: nat, nb: nat, leaf: nat, level: nat,
                   ghost k: nat, ghost cs: seq<Tree>, ghost lo: nat, ghost hi: nat)
      returns (index': nat, nb': nat, ghost c: Tree)
      requires fan > 0 && i < fan && |cs| == fan && lo < hi
      requires Rep(nodes, Entry(false, id), Node(id, cs)) && Sep(Node(id, cs)) && Below(Node(id, cs), nodesNb)
      requires CanSetSlot(cs[i], i, fan, level + 1, lo, hi)
      requires Edge(i, Size(fan, level)) < hi && lo < Edge(i, Size(fan, level)) + Size(fan, level)
      requires index == Base(k, fan, level + 1) + Max(lo, Edge(i, Size(fan, level))) && index + nb == Base(k, fan, level + 1) + hi
      requires SlotSet(cs[i], i, fan, level + 1, lo, hi, leaf, nodesNb).next <= Min(|nodes|, NIL)
      modifies this`nodes, this`nodesNb
      ensures Grown(c, nodesNb) == SlotSet(cs[i], i, fan, level + 1, lo, hi, leaf, old(nodesNb))
      ensures Rep(nodes, Entry(false, id), Node(id, cs[i := c])) && Sep(Node(id, cs[i := c])) && Below(Node(id, cs[i := c]), nodesNb)
      ensures GrownFrom(Node(id, cs), Node(id, cs[i := c]), old(nodesNb), nodesNb)
      ensures Touches(old(nodes), nodes, Node(id, cs), old(nodesNb))
      ensures index' == Base(k, fan, level + 1) + Min(hi, Edge(i, Size(fan, level)) + Size(fan, level))
      ensures index' + nb' == index + nb
      decreases level, 0
    {
      hide Size, Edge, Base, Rep, Sep, Below, GrownFrom, Touches, CanSetSlot, CanSet, SetNode;
      ghost var n, before := nodesNb, nodes;
      ghost var e := Edge(i, Size(fan, level));
      SlotChoice(cs[i], k, fan, level + 1, i, lo, hi);
      ChildRep(nodes, id, cs, i, n);
      var step := Size(fan, level);
      var entry: Entry;
      if index % step == 0 && nb >= step {
        entry := Entry(true, leaf);
        index', nb' := index + step, nb - step;
        c := Leaf(leaf);
        LeafRep(nodes, leaf, cs[i], n);
      } else {
        entry, index', nb', c := SetLevel(nodes[id][i], index, nb, leaf, level - 1, k * fan + i, cs[i], Max(lo - e, 0), hi - e);
      }
      SlotRep(before, nodes, id, cs, i, entry, c, n, nodesNb);
      SlotSep(id, cs, i, c, n, nodesNb);
      SlotTouches(before, nodes, id, cs, i, entry, n);
      nodes := Written(nodes, id, i, entry);
    }

    /** phys_page_set_level */
    method SetLevel(e: Entry, index: nat, nb: nat, leaf: nat, level: nat,
                    ghost k: nat, ghost t: Tree, ghost lo: nat, ghost hi: nat)
      returns (e': Entry, index': nat, nb': nat, ghost t': Tree)
      requires CanSet(t, fan, level + 1, lo, hi) && Rep(nodes, e, t) && Sep(t) && Below(t, nodesNb)
      requires index == Base(k, fan, level + 1) + lo && index + nb == Base(k, fan, level + 1) + hi
      requires SetNode(t, fan, level + 1, lo, hi, leaf, nodesNb).next <= Min(|nodes|, NIL)
      modifies this`nodes, this`nodesNb
      ensures Grown(t', nodesNb) == SetNode(t, fan, level + 1, lo, hi, leaf, old(nodesNb))
      ensures Rep(nodes, e', t') && Sep(t') && GrownFrom(t, t', old(nodesNb), nodesNb) && Touches(old(nodes), nodes, t, old(nodesNb))
      ensures index' == Base(k, fan, level + 1) + Min(hi, Size(fan, level + 1)) && index' + nb' == index + nb
      decreases level, 1
    {
      hide Size, Edge, Base, Rep, Sep, Below, GrownFrom, Touches, CanSetSlot, CanSet, SetSlots, SlotSet, Blank, CanSetSlots;
      ghost var n0, before := nodesNb, nodes;
      ghost var node := if t.Nil? then Blank(nodesNb, fan, level + 1) else t;
      ghost var h, a := level + 1, Size(fan, level);
      StartSlot(t, k, fan, h, lo, hi, n0);
      ghost var goal := SetNode(t, fan, h, lo, hi, leaf, nodesNb);
      EntryCases(nodes, e, t);
      if !e.isLeaf && e.ptr == NIL {
        var fresh' := Alloc(level);
        e' := Entry(false, fresh');
        BlankNode(before, nodes, fan, h, n0);
      } else {
        e' := e;
        SameNode(nodes, t, n0);
      }
      var id := e'.ptr;
      var i := index / Size(fan, level) % fan;
      index', nb' := index, nb;
      ghost var cs := node.children;
      while nb' > 0 && i < fan
        invariant i <= fan && |cs| == fan && CanSetSlots(cs, i, fan, h, lo, hi) && lo < Edge(i, a) + a
        invariant Rep(nodes, Entry(false, id), Node(id, cs)) && Sep(Node(id, cs)) && Below(Node(id, cs), nodesNb)
        invariant GrownFrom(t, Node(id, cs), n0, nodesNb) && Touches(before, nodes, t, n0) && |nodes| == |before|
        invariant var r := SetSlots(cs, i, fan, h, lo, hi, leaf, nodesNb); Grown(Node(id, r.children), r.next) == goal
        invariant index' == Base(k, fan, h) + Min(hi, Max(lo, Edge(i, a))) && index' + nb' == index + nb
        decreases fan - i
      {
        ghost var n1, mid := nodesNb, nodes;
        SlotStep(cs, i, fan, h, lo, hi, leaf, nodesNb);
        ghost var c;
        index', nb', c := SetSlot(id, i, index', nb', leaf, level, k, cs, lo, hi);
        TouchesOn(before, mid, nodes, t, Node(id, cs), n0, n1);
        GrowsOn(t, Node(id, cs), Node(id, cs[i := c]), n0, n1, nodesNb);
        Edges(i, a);
        cs := cs[i := c];
        i := i + 1;
      }
      t' := Node(id, cs);
      LastSlot(cs, i, fan, h, lo, hi, leaf, nodesNb);
    }

    /** phys_page_set: pages index.. are mapped to a section, all others stay
        as they were, and the reserved rows are more than enough. */
    method PhysPageSet(index: nat, nb: nat, leaf: nat)
      requires Valid() && nb > 0 && leaf != UNASSIGNED && index + nb <= Size(fan, levels)
      requires Splittable(tree, fan, levels, index, index + nb) && nodesNb + 2 * levels - 1 <= NIL
      modifies this
      ensures Valid() && nodesNb <= old(nodesNb) + 2 * levels - 1
      ensures forall q | 0 <= q < Size(fan, levels) :: Mapping(q) == if index <= q < index + nb then leaf else old(Mapping(q))
    {
      hide Size, SetNode, Rep, Sep, WellFormed, LeavesAssigned, Splittable;
      Reserve(3 * levels);
      ghost var before, n := tree, nodesNb;
      SetNodeMaps(tree, fan, levels, index, index + nb, leaf, n);
      AllocationBound(tree, fan, levels, index, index + nb, leaf, n);
      SetNodeKeepsAssigned(tree, fan, levels, index, index + nb, leaf, n);
      var index', nb';
      ghost var t';
      root, index', nb', t' := SetLevel(root, index, nb, leaf, levels - 1, 0, tree, index, index + nb);
      tree := t';
    }

    /** phys_page_find, as the index of a section */
    method PhysPageFind(index: nat) returns (s: nat)
      requires Valid() && index < Size(fan, levels)
      ensures s == Mapping(index)
    {
      hide Size, Sep, LeavesAssigned;
      var lp, i := root, levels;
      ghost var cur := tree;
      WholeIndex(index, Size(fan, levels));
      while i > 0 && !lp.isLeaf
        invariant 0 <= i <= levels && Rep(nodes, lp, cur) && WellFormed(cur, fan, i) && Size(fan, i) > 0
        invariant Mapping(index) == At(cur, fan, i, index % Size(fan, i))
        decreases i
      {
        if lp.ptr == NIL {
          return UNASSIGNED;
        }
        StepDown(nodes, lp, cur, fan, i, index);
        var slot := index / Size(fan, i - 1) % fan;
        cur := cur.children[slot];
        lp := nodes[lp.ptr][slot];
        i := i - 1;
      }
      return lp.ptr;
    }
  }

  /** One step of a lookup. */
  lemma StepDown(nodes: Nodes, e: Entry, t: Tree, fan: nat, h: nat, index: nat)
    requires fan > 0 && h > 0 && Rep(nodes, e, t) && WellFormed(t, fan, h) && t.Node?
    ensures var a := Size(fan, h - 1);
      var slot := index / a % fan;
      && a > 0 && e.ptr < |nodes| && |nodes[e.ptr]| == fan == |t.children|
      && Rep(nodes, nodes[e.ptr][slot], t.children[slot]) && WellFormed(t.children[slot], fan, h - 1)
      && At(t, fan, h, index % Size(fan, h)) == At(t.children[slot], fan, h - 1, index % a)
  {
    ModSlot(index, fan, h);
    hide Size;
  }

  /** Shifting and masking a page number walks the same slots as dividing. */
  lemma ModSlot(index: nat, fan: nat, h: nat)
    requires fan > 0 && h > 0
    ensures var a := Size(fan, h - 1);
      var q := index % Size(fan, h);
      a > 0 && q < Size(fan, h) && index / a % fan == q / a < fan && index % a == q % a
  {
    var n, a := Size(fan, h), Size(fan, h - 1);
    var k, q := index / n, index % n;
    assert index == n * k + q;
    SlotInRange(fan, h, q);
    SlotOf(q, a);
    Position(k, fan, h, q / a, q % a);
    Reorder(k, n);
  }

  lemma WholeIndex(index: nat, n: nat)
    requires index < n
    ensures index % n == index
  {
  }

  lemma Reorder(k: nat, n: nat)
    ensures k * n == n * k
  {
  }

  lemma EntryCases(nodes: Nodes, e: Entry, t: Tree)
    requires Rep(nodes, e, t) && !t.Leaf?
    ensures t.Nil? <==> !e.isLeaf && e.ptr == NIL
    ensures t.Node? ==> e == Entry(false, t.id)
  {
  }

  lemma BlankNode(before: Nodes, nodes: Nodes, fan: nat, h: nat, n: nat)
    requires |nodes| == |before| && forall x | 0 <= x < |nodes| && x != n :: nodes[x] == before[x]
    ensures var node := Blank(n, fan, h);
      node.id == n && |node.children| == fan && node == Node(n, node.children) && Sep(node) && Below(node, n + 1) &&
      GrownFrom(Nil, node, n, n + 1) && Touches(before, nodes, Nil, n)
  {
  }

  lemma SameNode(nodes: Nodes, t: Tree, n: nat)
    ensures GrownFrom(t, t, n, n) && Touches(nodes, nodes, t, n)
  {
  }

  /** Where phys_page_set_level starts in the row. */
  lemma StartSlot(t: Tree, k: nat, fan: nat, h: nat, lo: nat, hi: nat, n: nat)
    requires CanSet(t, fan, h, lo, hi)
    ensures var a := Size(fan, h - 1);
      var node := if t.Nil? then Blank(n, fan, h) else t;
      && fan > 0 && lo < hi && lo < Size(fan, h) && !t.Leaf?
      && a > 0 && (Base(k, fan, h) + lo) / a % fan == lo / a < fan
      && Edge(lo / a, a) <= lo < Edge(lo / a, a) + a
      && |node.children| == fan && CanSetSlots(node.children, lo / a, fan, h, lo, hi)
  {
    var a := Size(fan, h - 1);
    SlotInRange(fan, h, lo);
    SlotOf(lo, a);
    Position(k, fan, h, lo / a, lo % a);
    SlotsReady(t, fan, h, lo, hi, n);
    hide Size, Edge, CanSetSlot;
  }

  lemma SlotStep(cs: seq<Tree>, i: nat, fan: nat, h: nat, lo: nat, hi: nat, leaf: nat, n: nat)
    requires CanSetSlots(cs, i, fan, h, lo, hi) && i < fan
    ensures CanSetSlot(cs[i], i, fan, h, lo, hi)
    ensures Edge(i, Size(fan, h - 1)) < hi ==>
      var g := SlotSet(cs[i], i, fan, h, lo, hi, leaf, n);
      SetSlots(cs, i, fan, h, lo, hi, leaf, n) == SetSlots(cs[i := g.tree], i + 1, fan, h, lo, hi, leaf, g.next) &&
      CanSetSlots(cs[i := g.tree], i + 1, fan, h, lo, hi)
  {
    hide Size, Edge, CanSetSlot, SetNode;
  }

  lemma LastSlot(cs: seq<Tree>, i: nat, fan: nat, h: nat, lo: nat, hi: nat, leaf: nat, n: nat)
    requires fan > 0 && h > 0 && |cs| == fan && i <= fan && lo < hi
    requires i == fan || hi <= Max(lo, Edge(i, Size(fan, h - 1)))
    ensures SetSlots(cs, i, fan, h, lo, hi, leaf, n) == GrownAll(cs, n)
    ensures Min(hi, Max(lo, Edge(i, Size(fan, h - 1)))) == Min(hi, Max(lo, Size(fan, h)))
  {
    EdgeMonotone(i, fan, Size(fan, h - 1));
  }

  /** One slot of SetSlots that the range touches. */
  ghost function SlotSet(c: Tree, i: nat, fan: nat, h: nat, lo: nat, hi: nat, leaf: nat, next: nat): Grown
    requires fan > 0 && h > 0
  {
    var a := Size(fan, h - 1);
    var e := Edge(i, a);
    if lo <= e && e + a <= hi then Grown(Leaf(leaf), next)
    else SetNode(c, fan, h - 1, Max(lo - e, 0), hi - e, leaf, next)
  }
}
