/** Address space dispatch as values: the page table, the list of sections and
    the subpage tables, and what mem_add does to them. */
module Dispatch {
  import opened Common
  import opened PhysTree
  import opened Slots

  /** A device or RAM region, or one of the built-in ones. */
  datatype Region =
    | Unassigned | NotDirty | Rom | Watch
    | SubpageRam                    // io_mem_subpage_ram
    | SubpageIo(index: nat)         // the iomem of a subpage
    | Mr(id: nat, ram: bool)

  datatype Section = Section(mr: Region, space: nat, region: nat, size: nat)

  function End(s: Section): nat { s.space + s.size }

  datatype Subpage = Subpage(base: nat, table: seq<nat>)

  datatype Disp = Disp(pages: seq<nat>, sections: seq<Section>, subs: seq<Subpage>)

  // ---- pages of P bytes

  function PageOf(addr: nat, P: nat): nat
    requires P > 0
  {
    addr / P
  }

  function OffsetIn(addr: nat, P: nat): (r: nat)
    requires P > 0
    ensures r < P
  {
    addr % P
  }

  lemma PageFacts(addr: nat, P: nat)
    requires P > 0
    ensures Edge(PageOf(addr, P), P) <= addr < Edge(PageOf(addr, P), P) + P
    ensures OffsetIn(addr, P) == addr - Edge(PageOf(addr, P), P)
  {
    SlotOf(addr, P);
  }

  lemma PageIs(addr: nat, q: nat, P: nat)
    requires P > 0 && Edge(q, P) <= addr < Edge(q, P) + P
    ensures PageOf(addr, P) == q && OffsetIn(addr, P) == addr - Edge(q, P)
  {
    SlotUnique(addr, q, P);
    SlotOf(addr, P);
  }

  // ---- lookups

  /** Where an address of a section leads. */
  function Direct(s: Section, addr: int): (Region, int) { (s.mr, addr - s.space + s.region) }

  predicate SubOk(d: Disp, P: nat, k: nat) {
    k < |d.subs| && |d.subs[k].table| == P &&
    forall i | 0 <= i < P :: d.subs[k].table[i] < |d.sections| && !d.sections[d.subs[k].table[i]].mr.SubpageIo?
  }

  predicate Shape(d: Disp, P: nat) {
    && P > 0 && |d.sections| > 0 && d.sections[0].mr == Unassigned && d.sections[0].space == 0 == d.sections[0].region
    && (forall q | 0 <= q < |d.pages| :: d.pages[q] < |d.sections|)
    && (forall i | 0 <= i < |d.sections| && d.sections[i].mr.SubpageIo? :: SubOk(d, P, d.sections[i].mr.index))
    && (forall q | 0 <= q < |d.pages| && IsSub(d, q) ::
          SubOk(d, P, SubIndex(d, q)) && d.subs[SubIndex(d, q)].base == Edge(q, P) == d.sections[d.pages[q]].space && d.sections[d.pages[q]].region == 0)
  }

  predicate IsSub(d: Disp, q: nat) {
    q < |d.pages| && d.pages[q] < |d.sections| && d.sections[d.pages[q]].mr.SubpageIo?
  }

  function SubIndex(d: Disp, q: nat): nat
    requires IsSub(d, q)
  {
    d.sections[d.pages[q]].mr.index
  }

  /** What an access to an address reaches: through the page map, and through
      the table of a subpage if the page is one. */
  function Resolve(d: Disp, P: nat, addr: nat): (Region, int)
    requires Shape(d, P) && PageOf(addr, P) < |d.pages|
  {
    var s := d.sections[d.pages[PageOf(addr, P)]];
    if s.mr.SubpageIo? then
      assert SubOk(d, P, s.mr.index);
      Direct(d.sections[d.subs[s.mr.index].table[OffsetIn(addr, P)]], addr)
    else Direct(s, addr)
  }

  // ---- mem_begin

  const MAX64: nat := 0xffff_ffff_ffff_ffff

  function Begun(n: nat): Disp {
    Disp(seq(n, _ => UNASSIGNED),
         [Section(Unassigned, 0, 0, MAX64), Section(NotDirty, 0, 0, MAX64), Section(Rom, 0, 0, MAX64), Section(Watch, 0, 0, MAX64)],
         [])
  }

  // ---- register_subpage

  /** The page of a section that lies in one page is made a subpage, unless it
      is one already. */
  function WithSubpage(d: Disp, P: nat, q: nat): Disp
    requires q < |d.pages| && d.pages[q] < |d.sections|
  {
    if IsSub(d, q) then d
    else Disp(d.pages[q := |d.sections|],
              d.sections + [Section(SubpageIo(|d.subs|), Edge(q, P), 0, P)],
              d.subs + [Subpage(Edge(q, P), seq(P, _ => UNASSIGNED))])
  }

  /** RAM behind a subpage is reached through a region of its own. */
  function Reached(mr: Region, viaSubpage: bool): Region {
    if viaSubpage && mr.Mr? && mr.ram then SubpageRam else mr
  }

  /** Entries start..end of a table. */
  function Filled(table: seq<nat>, start: nat, end: nat, v: nat): seq<nat> {
    seq(|table|, i requires 0 <= i < |table| => if start <= i <= end then v else table[i])
  }

  /** subpage_register on subpage k, for the section at the end of the list */
  function SubpageRegister(d: Disp, P: nat, k: nat, start: nat, end: nat): Disp
    requires k < |d.subs| && |d.sections| > 0
  {
    if start >= P || end >= P then d
    else
      var idx: nat := |d.sections| - 1;
      var s := d.sections[idx];
      var d1 := if s.mr.Mr? && s.mr.ram then d.(sections := d.sections + [s.(mr := SubpageRam)]) else d;
      d1.(subs := d1.subs[k := d1.subs[k].(table := Filled(d1.subs[k].table, start, end, |d1.sections| - 1))])
  }

  function RegisterSubpage(d: Disp, P: nat, now: Section): Disp
    requires Shape(d, P) && PageOf(now.space, P) < |d.pages|
  {
    var q := PageOf(now.space, P);
    var d1 := WithSubpage(d, P, q);
    var k := d1.sections[d1.pages[q]].mr.index;
    var d2 := d1.(sections := d1.sections + [now]);
    var start := OffsetIn(now.space, P);
    assert IsSub(d, q) ==> SubOk(d, P, k);
    SubpageRegister(d2, P, k, start, (start + now.size - 1) % TWO32)
  }

  // ---- register_multipage

  function RegisterMultipage(d: Disp, P: nat, now: Section): Disp
    requires P > 0
  {
    var q, n := PageOf(now.space, P), PageOf(now.size, P);
    Disp(seq(|d.pages|, i requires 0 <= i < |d.pages| => if q <= i < q + n then |d.sections| else d.pages[i]),
         d.sections + [now], d.subs)
  }

  // ---- what these do to lookups

  /** Every address resolves as before. */
  ghost predicate SameView(d: Disp, d': Disp, P: nat)
    requires Shape(d, P) && Shape(d', P)
  {
    |d'.pages| == |d.pages| && forall addr: nat | PageOf(addr, P) < |d.pages| :: Resolve(d', P, addr) == Resolve(d, P, addr)
  }

  lemma AddSection(d: Disp, P: nat, s: Section)
    requires Shape(d, P) && !s.mr.SubpageIo?
    ensures var d' := d.(sections := d.sections + [s]); Shape(d', P) && SameView(d, d', P)
    ensures forall q | 0 <= q < |d.pages| :: IsSub(d.(sections := d.sections + [s]), q) == IsSub(d, q)
  {
    var d' := d.(sections := d.sections + [s]);
    hide PageOf, OffsetIn, Edge;
    forall k | SubOk(d, P, k)
      ensures SubOk(d', P, k)
    {
    }
    assert forall q | 0 <= q < |d.pages| :: d'.sections[d.pages[q]] == d.sections[d.pages[q]] && IsSub(d', q) == IsSub(d, q);
    assert forall q | 0 <= q < |d.pages| && IsSub(d', q) :: SubIndex(d', q) == SubIndex(d, q);
  }

  lemma MakeSubpage(d: Disp, P: nat, q: nat)
    requires Shape(d, P) && q < |d.pages| && (IsSub(d, q) || d.pages[q] == UNASSIGNED)
    ensures var d' := WithSubpage(d, P, q);
      && Shape(d', P) && SameView(d, d', P) && IsSub(d', q) && d'.pages == d.pages[q := d'.pages[q]]
      && forall p | 0 <= p < |d.pages| && p != q :: IsSub(d', p) == IsSub(d, p)
  {
    if !IsSub(d, q) {
      var d' := WithSubpage(d, P, q);
      forall k | SubOk(d, P, k)
        ensures SubOk(d', P, k)
      {
      }
      assert SubOk(d', P, |d.subs|);
      forall addr: nat | PageOf(addr, P) < |d.pages|
        ensures Resolve(d', P, addr) == Resolve(d, P, addr)
      {
        PageFacts(addr, P);
        hide PageOf, OffsetIn, Edge;
      }
    }
  }

  /** Addresses lo..hi now lead into section s, all others as before. */
  ghost predicate Shown(d: Disp, d': Disp, P: nat, lo: int, hi: int, s: Section)
    requires Shape(d, P) && Shape(d', P)
  {
    |d'.pages| == |d.pages| &&
    forall addr: nat | PageOf(addr, P) < |d.pages| ::
      Resolve(d', P, addr) == if lo <= addr < hi then Direct(s, addr) else Resolve(d, P, addr)
  }

  /** Rewriting entries start..end of the table of page q's subpage. */
  lemma FillTable(d: Disp, P: nat, q: nat, start: nat, end: nat, v: nat)
    requires Shape(d, P) && q < |d.pages| && IsSub(d, q) && v < |d.sections| && !d.sections[v].mr.SubpageIo? && end < P
    ensures var k := SubIndex(d, q);
      k < |d.subs| &&
      var d' := d.(subs := d.subs[k := d.subs[k].(table := Filled(d.subs[k].table, start, end, v))]);
      Shape(d', P) && Shown(d, d', P, Edge(q, P) + start, Edge(q, P) + end + 1, d.sections[v])
  {
    var k := SubIndex(d, q);
    assert SubOk(d, P, k);
    var d' := d.(subs := d.subs[k := d.subs[k].(table := Filled(d.subs[k].table, start, end, v))]);
    forall j | SubOk(d, P, j)
      ensures SubOk(d', P, j)
    {
    }
    assert forall p | 0 <= p < |d.pages| :: IsSub(d', p) == IsSub(d, p);
    forall addr: nat | PageOf(addr, P) < |d.pages|
      ensures Resolve(d', P, addr) == if Edge(q, P) + start <= addr < Edge(q, P) + end + 1 then Direct(d.sections[v], addr) else Resolve(d, P, addr)
    {
      PageFacts(addr, P);
      if PageOf(addr, P) == q {
      } else {
        SubpagesApart(d, P, q, PageOf(addr, P));
        EdgesApart(q, PageOf(addr, P), P);
      }
      hide PageOf, OffsetIn, Edge;
    }
  }

  lemma EdgesApart(q: nat, p: nat, P: nat)
    requires q != p
    ensures Edge(p, P) + P <= Edge(q, P) || Edge(q, P) + P <= Edge(p, P)
  {
    if q < p {
      EdgeMonotone(q + 1, p, P);
      Edges(q, P);
    } else {
      EdgeMonotone(p + 1, q, P);
      Edges(p, P);
    }
  }

  /** No two pages share a subpage. */
  lemma SubpagesApart(d: Disp, P: nat, q: nat, p: nat)
    requires Shape(d, P) && q < |d.pages| && p < |d.pages| && q != p && IsSub(d, q)
    ensures IsSub(d, p) ==> SubIndex(d, p) != SubIndex(d, q)
  {
    EdgesApart(q, p, P);
  }

  lemma SameThenSame(d: Disp, d1: Disp, d2: Disp, P: nat)
    requires Shape(d, P) && Shape(d1, P) && Shape(d2, P) && SameView(d, d1, P) && SameView(d1, d2, P)
    ensures SameView(d, d2, P)
  {
    hide Shape, Resolve;
  }

  lemma SameThenShown(d: Disp, d1: Disp, d2: Disp, P: nat, lo: int, hi: int, s: Section)
    requires Shape(d, P) && Shape(d1, P) && Shape(d2, P) && SameView(d, d1, P) && Shown(d1, d2, P, lo, hi, s)
    ensures Shown(d, d2, P, lo, hi, s)
  {
    hide Shape, Resolve;
  }

  /** subpage_register shows the last section of the list in page q. */
  lemma RegisterShown(d: Disp, P: nat, q: nat, start: nat, end: nat)
    requires Shape(d, P) && q < |d.pages| && IsSub(d, q) && end < P && start < P
    requires !d.sections[|d.sections| - 1].mr.SubpageIo?
    ensures SubIndex(d, q) < |d.subs|
    ensures var d' := SubpageRegister(d, P, SubIndex(d, q), start, end);
      var s := d.sections[|d.sections| - 1];
      Shape(d', P) && Shown(d, d', P, Edge(q, P) + start, Edge(q, P) + end + 1, s.(mr := Reached(s.mr, true)))
  {
    var s := d.sections[|d.sections| - 1];
    assert SubOk(d, P, SubIndex(d, q));
    hide Edge, Resolve, Shown, SameView, Filled, SubOk;
    if s.mr.Mr? && s.mr.ram {
      AddSection(d, P, s.(mr := SubpageRam));
      hide Shape;
      var d1 := d.(sections := d.sections + [s.(mr := SubpageRam)]);
      FillTable(d1, P, q, start, end, |d1.sections| - 1);
      SameThenShown(d, d1, SubpageRegister(d, P, SubIndex(d, q), start, end), P, Edge(q, P) + start, Edge(q, P) + end + 1, s.(mr := SubpageRam));
    } else {
      FillTable(d, P, q, start, end, |d.sections| - 1);
    }
  }

  /** A section inside one page becomes visible there and nowhere else. */
  lemma SubpageShown(d: Disp, P: nat, now: Section)
    requires Shape(d, P) && P < TWO32 && !now.mr.SubpageIo? && PageOf(now.space, P) < |d.pages|
    requires OffsetIn(now.space, P) + now.size <= P
    requires IsSub(d, PageOf(now.space, P)) || d.pages[PageOf(now.space, P)] == UNASSIGNED
    ensures var d' := RegisterSubpage(d, P, now);
      Shape(d', P) && Shown(d, d', P, now.space, End(now), now.(mr := Reached(now.mr, true)))
  {
    var q := PageOf(now.space, P);
    PageFacts(now.space, P);
    var d1 := WithSubpage(d, P, q);
    MakeSubpage(d, P, q);
    AddSection(d1, P, now);
    var d2 := d1.(sections := d1.sections + [now]);
    SameThenSame(d, d1, d2, P);
    var start := OffsetIn(now.space, P);
    var end := (start + now.size - 1) % TWO32;
    EndOfRange(start, now.size, P);
    assert RegisterSubpage(d, P, now) == SubpageRegister(d2, P, SubIndex(d2, q), start, end);
    hide PageOf, OffsetIn, Edge, WithSubpage, RegisterSubpage, SameView;
    if end < P {
      RegisterShown(d2, P, q, start, end);
      hide SubpageRegister;
      SameThenShown(d, d2, RegisterSubpage(d, P, now), P, Edge(q, P) + start, Edge(q, P) + end + 1, now.(mr := Reached(now.mr, true)));
    } else {
      assert SubpageRegister(d2, P, SubIndex(d2, q), start, end) == d2;
      SameIsShown(d, d2, P, now.space, End(now), now.(mr := Reached(now.mr, true)));
    }
  }

  lemma SameIsShown(d: Disp, d': Disp, P: nat, lo: int, hi: int, s: Section)
    requires Shape(d, P) && Shape(d', P) && SameView(d, d', P) && hi <= lo
    ensures Shown(d, d', P, lo, hi, s)
  {
    hide Shape, Resolve;
  }

  lemma EndOfRange(start: nat, size: nat, P: nat)
    requires start < P < TWO32 && start + size <= P
    ensures var end := (start + size - 1) % TWO32;
      if start + size == 0 then end >= P else end == start + size - 1
  {
  }

  /** Whole pages become a section. */
  lemma MultipageShown(d: Disp, P: nat, now: Section)
    requires Shape(d, P) && !now.mr.SubpageIo?
    requires OffsetIn(now.space, P) == 0 == OffsetIn(now.size, P)
    ensures var d' := RegisterMultipage(d, P, now);
      Shape(d', P) && Shown(d, d', P, now.space, End(now), now)
  {
    var d' := RegisterMultipage(d, P, now);
    var q, n := PageOf(now.space, P), PageOf(now.size, P);
    PageFacts(now.space, P);
    PageFacts(now.size, P);
    forall j | SubOk(d, P, j)
      ensures SubOk(d', P, j)
    {
    }
    assert forall p | 0 <= p < |d.pages| && IsSub(d', p) :: IsSub(d, p) && SubIndex(d', p) == SubIndex(d, p);
    forall addr: nat | PageOf(addr, P) < |d.pages|
      ensures Resolve(d', P, addr) == if now.space <= addr < End(now) then Direct(now, addr) else Resolve(d, P, addr)
    {
      var p := PageOf(addr, P);
      PageFacts(addr, P);
      PagesOfRange(p, q, n, P);
      hide PageOf, OffsetIn, Edge;
    }
  }

  lemma PagesOfRange(p: nat, q: nat, n: nat, P: nat)
    ensures Edge(q + n, P) == Edge(q, P) + Edge(n, P)
    ensures p < q ==> Edge(p, P) + P <= Edge(q, P)
    ensures q <= p ==> Edge(q, P) <= Edge(p, P)
    ensures p < q + n ==> Edge(p, P) + P <= Edge(q + n, P)
    ensures q + n <= p ==> Edge(q + n, P) <= Edge(p, P)
  {
    if p < q {
      EdgesApart(q, p, P);
      EdgeMonotone(p, q, P);
    } else {
      EdgeMonotone(q, p, P);
    }
    if p < q + n {
      EdgesApart(q + n, p, P);
      EdgeMonotone(p, q + n, P);
    } else {
      EdgeMonotone(q + n, p, P);
    }
  }
}
