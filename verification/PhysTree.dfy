/** The physical page map as a tree: what phys_page_set_level does to it, what
    a lookup finds in it, and how many nodes are allocated.  A tree of height
    h maps Fan^h pages; the source's level is h - 1. */
module PhysTree {
  import opened Common
  import opened Slots

  /** A node remembers its index in the node array. */
  datatype Tree = Nil | Leaf(section: nat) | Node(id: nat, children: seq<Tree>)

  /** L2_SIZE to the power h: pages below an entry of height h. */
  function Size(fan: nat, h: nat): (n: nat)
    ensures fan > 0 ==> n > 0
  {
    if h == 0 then 1
    else
      var below := Size(fan, h - 1);
      assert fan > 0 ==> fan * below > 0;
      fan * below
  }

  ghost predicate WellFormed(t: Tree, fan: nat, h: nat) {
    match t
    case Nil => h > 0
    case Leaf(_) => true
    case Node(_, cs) => h > 0 && |cs| == fan && forall i | 0 <= i < fan :: WellFormed(cs[i], fan, h - 1)
  }

  const UNASSIGNED: nat := 0

  /** The section a page is mapped to. */
  function At(t: Tree, fan: nat, h: nat, q: nat): nat
    requires fan > 0
    decreases h
  {
    match t
    case Nil => UNASSIGNED
    case Leaf(s) => s
    case Node(_, cs) =>
      if h == 0 || |cs| != fan || q >= Size(fan, h) then UNASSIGNED
      else
        SlotInRange(fan, h, q);
        At(cs[q / Size(fan, h - 1)], fan, h - 1, q % Size(fan, h - 1))
  }

  lemma SlotInRange(fan: nat, h: nat, q: nat)
    requires fan > 0 && h > 0 && q < Size(fan, h)
    ensures 0 <= q / Size(fan, h - 1) < fan && 0 <= q % Size(fan, h - 1) < Size(fan, h - 1)
  {
    DivBound(q, fan, Size(fan, h - 1));
  }

  // ---- setting a range

  /** A newly allocated node: at the bottom its entries are leaves. */
  function Blank(id: nat, fan: nat, h: nat): Tree {
    Node(id, seq(fan, _ => if h == 1 then Leaf(UNASSIGNED) else Nil))
  }

  /** No leaf above the bottom is only partly inside the range: such a leaf is
      never split.  Bounds are relative to the first page of t. */
  ghost predicate Splittable(t: Tree, fan: nat, h: nat, lo: int, hi: int)
    decreases t
  {
    lo >= Size(fan, h) || hi <= 0 || (lo <= 0 && Size(fan, h) <= hi) ||
    match t
    case Nil => true
    case Leaf(_) => h == 0
    case Node(_, cs) => h > 0 ==>
      var a := Size(fan, h - 1);
      forall i | 0 <= i < |cs| :: Splittable(cs[i], fan, h - 1, Max(lo - Edge(i, a), 0), hi - Edge(i, a))
  }

  datatype Grown = Grown(tree: Tree, next: nat)
  datatype GrownAll = GrownAll(children: seq<Tree>, next: nat)

  /** phys_page_set_level: map pages lo..hi, as far as t reaches, to a section.
      New nodes are numbered from next.  Reaching a leaf here is what
      Splittable rules out; the source has no sensible answer then. */
  ghost function SetNode(t: Tree, fan: nat, h: nat, lo: nat, hi: int, leaf: nat, next: nat): (r: Grown)
    requires fan > 0
    ensures r.next >= next
    decreases h, 1, 0
  {
    if t.Leaf? || h == 0 then Grown(t, next)
    else
      var node := if t.Nil? then Blank(next, fan, h) else t;
      var r := SetSlots(node.children, lo / Size(fan, h - 1), fan, h, lo, hi, leaf, if t.Nil? then next + 1 else next);
      Grown(Node(node.id, r.children), r.next)
  }

  ghost function SetSlots(cs: seq<Tree>, i: nat, fan: nat, h: nat, lo: nat, hi: int, leaf: nat, next: nat): (r: GrownAll)
    requires fan > 0 && h > 0
    ensures |r.children| == |cs| && r.next >= next
    decreases h, 0, |cs| - i
  {
    var a := Size(fan, h - 1);
    var e := Edge(i, a);
    if i >= |cs| || hi <= e then GrownAll(cs, next)
    else if lo <= e && e + a <= hi then
      SetSlots(cs[i := Leaf(leaf)], i + 1, fan, h, lo, hi, leaf, next)
    else
      var r := SetNode(cs[i], fan, h - 1, Max(lo - e, 0), hi - e, leaf, next);
      SetSlots(cs[i := r.tree], i + 1, fan, h, lo, hi, leaf, r.next)
  }

  /** The range can be set: it starts inside the tree and splits no leaf. */
  ghost predicate CanSet(t: Tree, fan: nat, h: nat, lo: int, hi: int) {
    fan > 0 && h > 0 && !t.Leaf? && WellFormed(t, fan, h) && 0 <= lo < Size(fan, h) && lo < hi && Splittable(t, fan, h, lo, hi)
  }

  /** Slot j is outside the range, or inside, or can be set in turn. */
  ghost predicate CanSetSlot(c: Tree, j: nat, fan: nat, h: nat, lo: int, hi: int)
    requires fan > 0 && h > 0
  {
    var a := Size(fan, h - 1);
    var e := Edge(j, a);
    WellFormed(c, fan, h - 1) &&
    (hi <= e || e + a <= lo || (lo <= e && e + a <= hi) || CanSet(c, fan, h - 1, Max(lo - e, 0), hi - e))
  }

  ghost predicate CanSetSlots(cs: seq<Tree>, i: nat, fan: nat, h: nat, lo: int, hi: int) {
    fan > 0 && h > 0 && |cs| == fan && forall j | i <= j < fan :: CanSetSlot(cs[j], j, fan, h, lo, hi)
  }

  lemma SlotReady(t: Tree, c: Tree, j: nat, fan: nat, h: nat, lo: int, hi: int)
    requires CanSet(t, fan, h, lo, hi) && j < fan
    requires if t.Nil? then c == (if h == 1 then Leaf(UNASSIGNED) else Nil) else c == t.children[j]
    ensures CanSetSlot(c, j, fan, h, lo, hi)
  {
    var a := Size(fan, h - 1);
    var e := Edge(j, a);
    EdgeMonotone(j + 1, fan, a);
    Edges(j, a);
    assert Size(fan, h) == Edge(fan, a);
    assert h == 1 ==> a == 1;
    hide Edge, Size;
    if t.Node? && !(lo <= 0 && Edge(fan, a) <= hi) {
      assert Splittable(c, fan, h - 1, Max(lo - e, 0), hi - e);
    }
  }

  lemma SlotsReady(t: Tree, fan: nat, h: nat, lo: int, hi: int, id: nat)
    requires CanSet(t, fan, h, lo, hi)
    ensures CanSetSlots((if t.Nil? then Blank(id, fan, h) else t).children, 0, fan, h, lo, hi)
  {
    var node := if t.Nil? then Blank(id, fan, h) else t;
    forall j | 0 <= j < fan
      ensures CanSetSlot(node.children[j], j, fan, h, lo, hi)
    {
      SlotReady(t, node.children[j], j, fan, h, lo, hi);
    }
  }

  // ---- what a lookup finds afterwards

  /** t' maps lo..hi to the section and every other page as t does. */
  ghost predicate Mapped(t: Tree, t': Tree, fan: nat, h: nat, lo: int, hi: int, leaf: nat)
    requires fan > 0
  {
    forall q | 0 <= q < Size(fan, h) :: At(t', fan, h, q) == if lo <= q < hi then leaf else At(t, fan, h, q)
  }

  ghost predicate SlotMapped(c: Tree, c': Tree, j: nat, fan: nat, h: nat, lo: int, hi: int, leaf: nat)
    requires fan > 0 && h > 0
  {
    var e := Edge(j, Size(fan, h - 1));
    Mapped(c, c', fan, h - 1, Max(lo - e, 0), hi - e, leaf) && WellFormed(c', fan, h - 1)
  }

  lemma AtSlot(id: nat, cs: seq<Tree>, fan: nat, h: nat, j: nat, q: nat)
    requires fan > 0 && h > 0 && |cs| == fan && q < Size(fan, h)
    requires j < fan && Edge(j, Size(fan, h - 1)) <= q < Edge(j, Size(fan, h - 1)) + Size(fan, h - 1)
    ensures At(Node(id, cs), fan, h, q) == At(cs[j], fan, h - 1, q - Edge(j, Size(fan, h - 1)))
  {
    var a := Size(fan, h - 1);
    SlotUnique(q, j, a);
    SlotOf(q, a);
    hide Size, Edge;
  }

  lemma {:induction false} SetNodeMaps(t: Tree, fan: nat, h: nat, lo: nat, hi: int, leaf: nat, next: nat)
    requires CanSet(t, fan, h, lo, hi)
    ensures var r := SetNode(t, fan, h, lo, hi, leaf, next);
      r.tree.Node? && WellFormed(r.tree, fan, h) && Mapped(t, r.tree, fan, h, lo, hi, leaf)
    decreases h, 1, 0
  {
    var node := if t.Nil? then Blank(next, fan, h) else t;
    var a := Size(fan, h - 1);
    var n1 := if t.Nil? then next + 1 else next;
    var r := SetSlots(node.children, lo / a, fan, h, lo, hi, leaf, n1);
    SlotInRange(fan, h, lo);
    SlotOf(lo, a);
    SlotsReady(t, fan, h, lo, hi, next);
    SetSlotsMaps(node.children, lo / a, fan, h, lo, hi, leaf, n1);
    hide Size, Edge, SetSlots, Splittable, WellFormed;
    forall q | 0 <= q < Size(fan, h)
      ensures At(Node(node.id, r.children), fan, h, q) == if lo <= q < hi then leaf else At(t, fan, h, q)
    {
      SetNodeMapsAt(t, node, r.children, fan, h, lo, hi, leaf, q);
    }
    NodeWellFormed(node.id, r.children, fan, h);
  }

  lemma NodeWellFormed(id: nat, cs: seq<Tree>, fan: nat, h: nat)
    requires h > 0 && |cs| == fan && forall j | 0 <= j < fan :: WellFormed(cs[j], fan, h - 1)
    ensures WellFormed(Node(id, cs), fan, h)
  {
  }

  lemma SetNodeMapsAt(t: Tree, node: Tree, cs: seq<Tree>, fan: nat, h: nat, lo: nat, hi: int, leaf: nat, q: nat)
    requires fan > 0 && h > 0 && q < Size(fan, h) && node.Node? && |node.children| == fan == |cs|
    requires if t.Nil? then node == Blank(node.id, fan, h) else node == t
    requires var a := Size(fan, h - 1); forall j | 0 <= j < fan ::
      if j < lo / a then cs[j] == node.children[j] else SlotMapped(node.children[j], cs[j], j, fan, h, lo, hi, leaf)
    ensures At(Node(node.id, cs), fan, h, q) == if lo <= q < hi then leaf else At(t, fan, h, q)
  {
    var a := Size(fan, h - 1);
    var j := q / a;
    SlotInRange(fan, h, q);
    SlotOf(q, a);
    SlotOf(lo, a);
    AtSlot(node.id, cs, fan, h, j, q);
    AtSlot(node.id, node.children, fan, h, j, q);
    var e := Edge(j, a);
    if j < lo / a {
      EdgeMonotone(j + 1, lo / a, a);
      Edges(j, a);
    } else {
      assert SlotMapped(node.children[j], cs[j], j, fan, h, lo, hi, leaf);
      assert Mapped(node.children[j], cs[j], fan, h - 1, Max(lo - e, 0), hi - e, leaf);
    }
    hide Size, Edge, SlotMapped, Mapped;
    assert At(t, fan, h, q) == At(node, fan, h, q);
  }

  /** Slots from i on are mapped, those before are left alone. */
  lemma {:induction false} SetSlotsMaps(cs: seq<Tree>, i: nat, fan: nat, h: nat, lo: nat, hi: int, leaf: nat, next: nat)
    requires CanSetSlots(cs, i, fan, h, lo, hi) && i <= fan && lo < Edge(i, Size(fan, h - 1)) + Size(fan, h - 1)
    ensures var r := SetSlots(cs, i, fan, h, lo, hi, leaf, next);
      forall j | 0 <= j < fan ::
        if j < i then r.children[j] == cs[j] else SlotMapped(cs[j], r.children[j], j, fan, h, lo, hi, leaf)
    decreases h, 0, fan - i
  {
    var a := Size(fan, h - 1);
    var e := Edge(i, a);
    Edges(i, a);
    if i == fan {
    } else if hi <= e {
      forall j | i <= j < fan
        ensures SlotMapped(cs[j], cs[j], j, fan, h, lo, hi, leaf)
      {
        EdgeMonotone(i, j, a);
        assert CanSetSlot(cs[j], j, fan, h, lo, hi);
      }
    } else {
      assert CanSetSlot(cs[i], i, fan, h, lo, hi);
      var inside := lo <= e && e + a <= hi;
      var c := if inside then Grown(Leaf(leaf), next) else SetNode(cs[i], fan, h - 1, Max(lo - e, 0), hi - e, leaf, next);
      if !inside {
        SetNodeMaps(cs[i], fan, h - 1, Max(lo - e, 0), hi - e, leaf, next);
      }
      assert SlotMapped(cs[i], c.tree, i, fan, h, lo, hi, leaf);
      var cs' := cs[i := c.tree];
      assert CanSetSlots(cs', i + 1, fan, h, lo, hi);
      SetSlotsMaps(cs', i + 1, fan, h, lo, hi, leaf, c.next);
      hide Size, Edge, SlotMapped, SetNode, CanSetSlot;
      var r := SetSlots(cs', i + 1, fan, h, lo, hi, leaf, c.next);
      assert r.children[i] == cs'[i];
      assert SetSlots(cs, i, fan, h, lo, hi, leaf, next) == r;
    }
  }

  // ---- how many nodes are allocated

  /** From a slot on whose start is inside the range, only the slot where the
      range ends needs nodes. */
  lemma {:induction false} TailAllocates(cs: seq<Tree>, i: nat, fan: nat, h: nat, lo: nat, hi: int, leaf: nat, next: nat)
    requires CanSetSlots(cs, i, fan, h, lo, hi) && i <= fan && lo <= Edge(i, Size(fan, h - 1))
    ensures var r := SetSlots(cs, i, fan, h, lo, hi, leaf, next);
      next <= r.next <= next + if hi >= Size(fan, h) then 0 else h - 1
    decreases h, 0, fan - i
  {
    var a := Size(fan, h - 1);
    var e := Edge(i, a);
    assert Size(fan, h) == Edge(fan, a);
    Edges(i, a);
    if i < fan && e < hi {
      EdgeMonotone(i + 1, fan, a);
      assert CanSetSlot(cs[i], i, fan, h, lo, hi);
      hide Size, Edge, WellFormed, Splittable, CanSetSlot;
      if e + a <= hi {
        TailAllocates(cs[i := Leaf(leaf)], i + 1, fan, h, lo, hi, leaf, next);
      } else {
        SetNodeAllocates(cs[i], fan, h - 1, 0, hi - e, leaf, next);
        var c := SetNode(cs[i], fan, h - 1, 0, hi - e, leaf, next);
        assert SetSlots(cs[i := c.tree], i + 1, fan, h, lo, hi, leaf, c.next) == GrownAll(cs[i := c.tree], c.next);
      }
    }
  }

  /** One call allocates at most one node per level and end of the range that
      falls inside the tree. */
  lemma {:induction false} SetNodeAllocates(t: Tree, fan: nat, h: nat, lo: nat, hi: int, leaf: nat, next: nat)
    requires CanSet(t, fan, h, lo, hi)
    ensures var r := SetNode(t, fan, h, lo, hi, leaf, next);
      next <= r.next <= next + if lo == 0 || hi >= Size(fan, h) then h else 2 * h - 1
    decreases h, 1, 0
  {
    var node := if t.Nil? then Blank(next, fan, h) else t;
    var a := Size(fan, h - 1);
    SlotInRange(fan, h, lo);
    SlotOf(lo, a);
    SlotsReady(t, fan, h, lo, hi, next);
    HeadAllocates(node.children, lo / a, fan, h, lo, hi, leaf, if t.Nil? then next + 1 else next);
  }

  lemma {:induction false} HeadAllocates(cs: seq<Tree>, i: nat, fan: nat, h: nat, lo: nat, hi: int, leaf: nat, next: nat)
    requires CanSetSlots(cs, i, fan, h, lo, hi) && i < fan && lo < hi
    requires Edge(i, Size(fan, h - 1)) <= lo < Edge(i, Size(fan, h - 1)) + Size(fan, h - 1)
    ensures var r := SetSlots(cs, i, fan, h, lo, hi, leaf, next);
      next <= r.next <= next + if lo == 0 || hi >= Size(fan, h) then h - 1 else 2 * h - 2
    decreases h, 0, fan + 1
  {
    var a := Size(fan, h - 1);
    var e := Edge(i, a);
    assert Size(fan, h) == Edge(fan, a);
    Edges(i, a);
    if lo == e {
      TailAllocates(cs, i, fan, h, lo, hi, leaf, next);
    } else {
      EdgeMonotone(i + 1, fan, a);
      EdgeMonotone(0, i, a);
      assert CanSetSlot(cs[i], i, fan, h, lo, hi);
      hide Size, Edge, WellFormed, Splittable, CanSetSlot;
      SetNodeAllocates(cs[i], fan, h - 1, lo - e, hi - e, leaf, next);
      var c := SetNode(cs[i], fan, h - 1, lo - e, hi - e, leaf, next);
      if hi <= e + a {
        assert SetSlots(cs[i := c.tree], i + 1, fan, h, lo, hi, leaf, c.next) == GrownAll(cs[i := c.tree], c.next);
      } else {
        TailAllocates(cs[i := c.tree], i + 1, fan, h, lo, hi, leaf, c.next);
      }
    }
  }

  /** phys_page_set on a map of the given number of levels allocates at most
      2 * levels - 1 nodes, fewer than the 3 * levels it reserves. */
  lemma AllocationBound(t: Tree, fan: nat, levels: nat, lo: nat, hi: int, leaf: nat, next: nat)
    requires CanSet(t, fan, levels, lo, hi)
    ensures SetNode(t, fan, levels, lo, hi, leaf, next).next - next <= 2 * levels - 1 < 3 * levels
  {
    SetNodeAllocates(t, fan, levels, lo, hi, leaf, next);
  }

  // ---- pages that map to nothing can be set

  /** A leaf above the bottom maps its pages to a real section. */
  ghost predicate LeavesAssigned(t: Tree, h: nat) {
    match t
    case Nil => true
    case Leaf(s) => h > 0 ==> s != UNASSIGNED
    case Node(_, cs) => h > 0 ==> forall i | 0 <= i < |cs| :: LeavesAssigned(cs[i], h - 1)
  }

  /** A range all of whose pages are unassigned splits no leaf. */
  lemma {:induction false} UnassignedSplittable(t: Tree, fan: nat, h: nat, lo: int, hi: int)
    requires fan > 0 && WellFormed(t, fan, h) && LeavesAssigned(t, h) && 0 <= lo < hi
    requires forall q | lo <= q < hi && q < Size(fan, h) :: At(t, fan, h, q) == UNASSIGNED
    ensures Splittable(t, fan, h, lo, hi)
    decreases h
  {
    if lo >= Size(fan, h) {
    } else if t.Leaf? {
      assert At(t, fan, h, lo) == UNASSIGNED;
    } else if t.Node? {
      var a := Size(fan, h - 1);
      forall i | 0 <= i < fan
        ensures Splittable(t.children[i], fan, h - 1, Max(lo - Edge(i, a), 0), hi - Edge(i, a))
      {
        UnassignedSlot(t, fan, h, lo, hi, i);
      }
    }
  }

  lemma {:induction false} UnassignedSlot(t: Tree, fan: nat, h: nat, lo: int, hi: int, i: nat)
    requires fan > 0 && WellFormed(t, fan, h) && LeavesAssigned(t, h) && 0 <= lo < hi && t.Node? && i < fan
    requires forall q | lo <= q < hi && q < Size(fan, h) :: At(t, fan, h, q) == UNASSIGNED
    ensures var e := Edge(i, Size(fan, h - 1)); Splittable(t.children[i], fan, h - 1, Max(lo - e, 0), hi - e)
    decreases h, 0
  {
    var a := Size(fan, h - 1);
    var e := Edge(i, a);
    var c, below := t.children[i], h - 1;
    if hi > e {
      EdgeMonotone(i + 1, fan, a);
      Edges(i, a);
      assert Size(fan, h) == Edge(fan, a);
      hide Edge, Size;
      forall q | Max(lo - e, 0) <= q < hi - e && q < a
        ensures At(c, fan, below, q) == UNASSIGNED
      {
        AtSlot(t.id, t.children, fan, h, i, e + q);
      }
      if Max(lo - e, 0) < hi - e {
        UnassignedSplittable(c, fan, h - 1, Max(lo - e, 0), hi - e);
      }
    }
  }

  /** Setting a range to a real section keeps leaves assigned. */
  lemma {:induction false} SetNodeKeepsAssigned(t: Tree, fan: nat, h: nat, lo: nat, hi: int, leaf: nat, next: nat)
    requires fan > 0 && LeavesAssigned(t, h) && leaf != UNASSIGNED
    ensures LeavesAssigned(SetNode(t, fan, h, lo, hi, leaf, next).tree, h)
    decreases h, 1, 0
  {
    if !t.Leaf? && h > 0 {
      var node := if t.Nil? then Blank(next, fan, h) else t;
      SetSlotsKeepsAssigned(node.children, lo / Size(fan, h - 1), fan, h, lo, hi, leaf, if t.Nil? then next + 1 else next);
    }
  }

  lemma {:induction false} SetSlotsKeepsAssigned(cs: seq<Tree>, i: nat, fan: nat, h: nat, lo: nat, hi: int, leaf: nat, next: nat)
    requires fan > 0 && h > 0 && leaf != UNASSIGNED && forall j | 0 <= j < |cs| :: LeavesAssigned(cs[j], h - 1)
    ensures forall j | 0 <= j < |cs| :: LeavesAssigned(SetSlots(cs, i, fan, h, lo, hi, leaf, next).children[j], h - 1)
    decreases h, 0, |cs| - i
  {
    var a := Size(fan, h - 1);
    var e := Edge(i, a);
    hide Size, Edge;
    if i >= |cs| || hi <= e {
    } else if lo <= e && e + a <= hi {
      SetSlotsKeepsAssigned(cs[i := Leaf(leaf)], i + 1, fan, h, lo, hi, leaf, next);
    } else {
      SetNodeKeepsAssigned(cs[i], fan, h - 1, Max(lo - e, 0), hi - e, leaf, next);
      var r := SetNode(cs[i], fan, h - 1, Max(lo - e, 0), hi - e, leaf, next);
      SetSlotsKeepsAssigned(cs[i := r.tree], i + 1, fan, h, lo, hi, leaf, r.next);
    }
  }
}
