/** mem_begin, mem_add and the lookup behind an access, on the radix map and
    the arrays of sections and subpages. */
module MemAdd {
  import opened Common
  import opened PhysTree
  import opened Slots
  import opened PhysMap
  import opened Dispatch
  import opened DispatchSteps

  /** Sections that fit the 15 bits of a section number in the map. */
  const SECTION_LIMIT: nat := 0x8000

  /** Rows that n calls of phys_page_set may use. */
  function Rows(n: nat, levels: nat): nat
    requires levels > 0
  {
    n * (2 * levels - 1)
  }

  lemma RowsSplit(m: nat, n: nat, levels: nat)
    requires levels > 0
    ensures Rows(m + n, levels) == Rows(m, levels) + Rows(n, levels) && Rows(1, levels) == 2 * levels - 1 && Rows(0, levels) == 0
  {
  }

  /** Pieces that what remains of a section from a page boundary on falls into:
      the whole pages, together or one by one if pages and region do not line
      up, and a last part of a page. */
  function Pieces(size: nat, P: nat, skewed: bool): nat
    requires P > 0
  {
    if skewed then PageOf(size, P) + 1 else if size >= P then 2 else 1
  }

  /** Calls of phys_page_set for a whole section: one more, for the part before
      the first page boundary.  At most three unless it is skewed. */
  function Calls(s: Section, P: nat): nat
    requires P > 0
  {
    1 + Pieces(s.size, P, Skewed(s, P))
  }

  lemma FewerPieces(size: nat, n: nat, P: nat, skewed: bool)
    requires P > 0 && P <= n <= size && (!skewed ==> size - n < P)
    ensures Pieces(size - n, P, skewed) + 1 <= Pieces(size, P, skewed)
  {
    PageFacts(size, P);
    PageFacts(size - n, P);
    var p, q := PageOf(size - n, P), PageOf(size, P);
    if p >= q {
      EdgeMonotone(q, p, P);
    }
  }

  lemma NotMorePieces(size: nat, n: nat, P: nat, skewed: bool)
    requires P > 0 && n <= size
    ensures Pieces(size - n, P, skewed) <= Pieces(size, P, skewed)
  {
    PageFacts(size, P);
    PageFacts(size - n, P);
    var p, q := PageOf(size - n, P), PageOf(size, P);
    if p > q {
      EdgeMonotone(q + 1, p, P);
      Edges(q, P);
    }
  }

  lemma EnoughRows(size: nat, n: nat, P: nat, skewed: bool, levels: nat)
    requires P > 0 && levels > 0 && n <= size && (n == 0 || (P <= n && (!skewed ==> size - n < P)))
    ensures 2 * levels - 1 <= Rows(Pieces(size, P, skewed), levels) && 1 <= Pieces(size, P, skewed)
    ensures n > 0 ==> Pieces(size - n, P, skewed) + 1 <= Pieces(size, P, skewed)
    ensures n > 0 ==> Rows(Pieces(size - n, P, skewed), levels) + 2 * levels - 1 <= Rows(Pieces(size, P, skewed), levels)
  {
    RowsSplit(1, Pieces(size, P, skewed) - 1, levels);
    if n > 0 {
      FewerPieces(size, n, P, skewed);
      var m := Pieces(size - n, P, skewed);
      RowsSplit(m + 1, Pieces(size, P, skewed) - m - 1, levels);
      RowsSplit(m, 1, levels);
    }
  }

  lemma NotMoreRows(size: nat, n: nat, P: nat, skewed: bool, levels: nat)
    requires P > 0 && levels > 0 && n <= size
    ensures Rows(Pieces(size - n, P, skewed), levels) <= Rows(Pieces(size, P, skewed), levels)
    ensures Pieces(size - n, P, skewed) <= Pieces(size, P, skewed)
  {
    NotMorePieces(size, n, P, skewed);
    var m := Pieces(size - n, P, skewed);
    RowsSplit(m, Pieces(size, P, skewed) - m, levels);
  }

  // ---- whole lists of sections

  /** Calls of phys_page_set for a list of sections. */
  function CallsFor(list: seq<Section>, P: nat): nat
    requires P > 0
  {
    if list == [] then 0 else CallsFor(list[..|list| - 1], P) + Calls(list[|list| - 1], P)
  }

  /** A list whose sections all line up needs at most three calls each. */
  lemma {:induction false} CallsForAligned(list: seq<Section>, P: nat)
    requires P > 0 && forall i | 0 <= i < |list| :: !Skewed(list[i], P)
    ensures CallsFor(list, P) <= 3 * |list|
  {
    if list != [] {
      CallsForAligned(list[..|list| - 1], P);
    }
  }

  lemma {:induction false} CallsForPrefix(list: seq<Section>, P: nat, k: nat)
    requires P > 0 && k < |list|
    ensures CallsFor(list[..k + 1], P) == CallsFor(list[..k], P) + Calls(list[k], P) <= CallsFor(list, P)
    decreases |list|
  {
    assert list[..k + 1][..k] == list[..k];
    var n := |list| - 1;
    if k < n {
      CallsForPrefix(list[..n], P, k);
      assert list[..n][..k + 1] == list[..k + 1];
    } else {
      assert list[..k + 1] == list;
    }
  }

  /** The node and section numbers a list needs fit their 15 bits. */
  predicate Numbered(list: seq<Section>, P: nat, levels: nat)
    requires P > 0 && levels > 0
  {
    Rows(CallsFor(list, P), levels) <= NIL && 4 + 3 * CallsFor(list, P) <= SECTION_LIMIT
  }

  /** What a list of sections must satisfy to be added one after the other. */
  predicate Addable(list: seq<Section>, limit: nat) {
    && (forall i | 0 <= i < |list| :: list[i].size > 0 && !list[i].mr.SubpageIo? && End(list[i]) <= limit)
    && (forall i, j | 0 <= i < j < |list| :: End(list[i]) <= list[j].space || End(list[j]) <= list[i].space)
  }

  lemma AgreesShape(d: Disp, P: nat, added: seq<Section>)
    requires Agrees(d, P, added)
    ensures Shape(d, P)
  {
  }

  /** The piece before the first page boundary, which may be empty. */
  lemma HeadPiece(s: Section, P: nat)
    requires P > 0 && s.size > 0 && (OffsetIn(s.space, P) != 0 || s.size < P)
    ensures var n := Min(RoundUp(s.space, P) - s.space, s.size);
      var q := PageOf(s.space, P);
      && 0 <= n && OffsetIn(s.space, P) + n <= P && !Inside(s, q, P) && ViaSub(s, P, q) && Touch(s.space, End(s), q, P)
      && s.(size := n) == Piece(s, s.space, n)
      && (OffsetIn(s.space + n, P) == 0 || n == s.size)
  {
    PageFacts(s.space, P);
    Rounding(s.space, P);
    RoundUpOffset(s.space, P);
    hide RoundUp, RoundDown, PageOf, OffsetIn, Edge;
  }

  lemma RoundUpOffset(x: nat, P: nat)
    requires P > 0
    ensures OffsetIn(x, P) != 0 ==> RoundUp(x, P) == x - OffsetIn(x, P) + P
    ensures OffsetIn(x, P) == 0 ==> RoundUp(x, P) == x
    ensures RoundUp(x, P) >= 0 && OffsetIn(RoundUp(x, P), P) == 0
  {
    Rounding(x, P);
    assert RoundDown(x, P) == x - OffsetIn(x, P);
    hide RoundUp, RoundDown;
  }

  /** The whole pages at the start of what remains. */
  lemma WholePages(s: Section, remain: Section, P: nat)
    requires P > 0 && remain.size >= P && s.space <= remain.space && End(remain) == End(s) && OffsetIn(remain.space, P) == 0
    ensures var q := PageOf(remain.space, P);
      Touch(s.space, End(s), q, P) && (Skewed(s, P) ==> ViaSub(s, P, q))
    ensures var n := remain.size - OffsetIn(remain.size, P);
      P <= n <= remain.size && OffsetIn(n, P) == 0 && OffsetIn(remain.space + n, P) == 0 && OffsetIn(remain.space + P, P) == 0
  {
    PageFacts(remain.space, P);
    PageFacts(remain.size, P);
    var k, m := PageOf(remain.space, P), PageOf(remain.size, P);
    Edges(k, P);
    EdgeMonotone(1, m, P);
    assert Edge(1, P) == P;
    PagesOfRange(0, k, m, P);
    PageIs(Edge(m, P), m, P);
    PageIs(Edge(k + m, P), k + m, P);
    PageIs(Edge(k + 1, P), k + 1, P);
    hide Edge, PageOf, OffsetIn, Skewed;
  }

  lemma LastPiece(s: Section, remain: Section, P: nat)
    requires P > 0 && 0 < remain.size < P && s.space <= remain.space && End(remain) == End(s) && OffsetIn(remain.space, P) == 0
    ensures var q := PageOf(remain.space, P);
      OffsetIn(remain.space, P) + remain.size <= P && ViaSub(s, P, q) && Touch(s.space, End(s), q, P)
  {
    PageFacts(remain.space, P);
    hide Edge, PageOf, OffsetIn, Skewed;
  }

  class AddressSpaceDispatch {
    const page: nat                 // TARGET_PAGE_SIZE
    const radix: PhysPageMap
    var sections: seq<Section>
    var subs: seq<Subpage>
    ghost var pages: seq<nat>       // the map, page by page
    ghost var added: seq<Section>   // since mem_begin

    ghost function D(): Disp
      reads this
    {
      Disp(pages, sections, subs)
    }

    ghost predicate Mapped()
      reads this`pages, radix
    {
      radix.Valid() && |pages| == Size(radix.fan, radix.levels) && 0 < page < TWO32 &&
      forall q | 0 <= q < |pages| :: pages[q] == radix.Mapping(q)
    }

    ghost predicate Valid()
      reads this, radix
    {
      Mapped() && Agrees(D(), page, added) && |sections| <= SECTION_LIMIT
    }

    constructor (fan: nat, levels: nat, page: nat)
      requires fan > 0 && levels > 0 && 0 < page < TWO32
      ensures Valid() && added == [] && fresh(radix) && this.page == page && radix.fan == fan && radix.levels == levels && radix.nodesNb == 0
    {
      this.page := page;
      radix := new PhysPageMap(fan, levels);
      var d := Begun(0);
      sections, subs, added := d.sections, d.subs, [];
      pages := seq(Size(fan, levels), _ => UNASSIGNED);
      new;
      BegunAgrees(|pages|, page);
      assert D() == Begun(|pages|);
    }

    /** mem_begin */
    method MemBegin()
      requires Valid()
      modifies this, radix
      ensures Valid() && added == [] && radix.nodesNb == 0 && |sections| == 4 && |pages| == old(|pages|)
      ensures sections[0].mr == Unassigned && sections[1].mr == NotDirty && sections[2].mr == Rom && sections[3].mr == Watch
    {
      radix.Reset();
      var d := Begun(0);
      sections, subs, added := d.sections, d.subs, [];
      pages := seq(Size(radix.fan, radix.levels), _ => UNASSIGNED);
      BegunAgrees(|pages|, page);
      assert D() == Begun(|pages|);
    }

    /** phys_page_set on pages that map to nothing yet */
    method PageSet(q: nat, n: nat, leaf: nat)
      requires Mapped() && n > 0 && leaf != UNASSIGNED && q + n <= |pages| && radix.nodesNb + 2 * radix.levels - 1 <= NIL
      requires leaf < SECTION_LIMIT
      requires forall i | q <= i < q + n :: pages[i] == UNASSIGNED
      modifies this`pages, radix
      ensures Mapped() && radix.nodesNb <= old(radix.nodesNb) + 2 * radix.levels - 1
      ensures |pages| == old(|pages|)
      ensures forall i | 0 <= i < |pages| :: pages[i] == if q <= i < q + n then leaf else old(pages)[i]
    {
      hide Size, Splittable, WellFormed, LeavesAssigned, Rep, Sep, Below, At;
      forall i | q <= i < q + n && i < Size(radix.fan, radix.levels)
        ensures At(radix.tree, radix.fan, radix.levels, i) == UNASSIGNED
      {
        assert pages[i] == radix.Mapping(i);
      }
      UnassignedSplittable(radix.tree, radix.fan, radix.levels, q, q + n);
      ghost var before := pages;
      radix.PhysPageSet(q, n, leaf);
      pages := seq(|before|, i requires 0 <= i < |before| => if q <= i < q + n then leaf else before[i]);
    }

    method RegisterSubpage(now: Section)
      requires Mapped() && Shape(D(), page) && !now.mr.SubpageIo? && PageOf(now.space, page) < |pages|
      requires KindOf(D(), PageOf(now.space, page)) != Whole && radix.nodesNb + 2 * radix.levels - 1 <= NIL
      requires |sections| + 3 <= SECTION_LIMIT
      modifies this`sections, this`subs, this`pages, radix
      ensures Mapped() && radix.nodesNb <= old(radix.nodesNb) + 2 * radix.levels - 1
      ensures D() == Dispatch.RegisterSubpage(old(D()), page, now) && |sections| <= |old(sections)| + 3
    {
      var q := PageOf(now.space, page);
      var base := q * page;
      assert base == Edge(q, page);
      assert IsSub(D(), q) ==> SubIndex(D(), q) < |subs|;
      hide Size, PhysPageMap.Valid, PageOf, OffsetIn, Edge, Filled, SubOk, At, SubpageRegister;
      var existing := radix.PhysPageFind(q);
      KindOpen(D(), q);
      // the source's assertion
      assert sections[existing].mr.SubpageIo? || sections[existing].mr == Unassigned;
      var k;
      if !sections[existing].mr.SubpageIo? {
        k := |subs|;
        subs := subs + [Subpage(base, seq(page, _ => UNASSIGNED))];
        sections := sections + [Section(SubpageIo(k), base, 0, page)];
        PageSet(q, 1, |sections| - 1);
        assert pages == old(pages)[q := |sections| - 1];
      } else {
        k := sections[existing].mr.index;
      }
      assert D() == WithSubpage(old(D()), page, q);
      var start := OffsetIn(now.space, page);
      var end := (start + now.size - 1) % TWO32;
      sections := sections + [now];
      RegisterInTable(k, start, end);
    }

    /** subpage_register, for the section added last */
    method RegisterInTable(k: nat, start: nat, end: nat)
      requires |sections| > 0 && k < |subs|
      modifies this`sections, this`subs
      ensures D() == SubpageRegister(old(D()), page, k, start, end) && |sections| <= |old(sections)| + 1
    {
      if start >= page || end >= page {
        return;
      }
      var s := sections[|sections| - 1];
      if s.mr.Mr? && s.mr.ram {
        sections := sections + [s.(mr := SubpageRam)];
      }
      var idx: nat := |sections| - 1;
      var table := subs[k].table;
      var i := start;
      while i <= end && i < |table|
        invariant start <= i && |table| == |old(subs)[k].table|
        invariant forall j | 0 <= j < |table| :: table[j] == if start <= j < i && j <= end then idx else old(subs)[k].table[j]
        decreases |table| - i
      {
        table := table[i := idx];
        i := i + 1;
      }
      assert table == Filled(old(subs)[k].table, start, end, idx);
      subs := subs[k := subs[k].(table := table)];
    }

    method RegisterMultipage(now: Section)
      requires Mapped() && Shape(D(), page) && radix.nodesNb + 2 * radix.levels - 1 <= NIL && |sections| < SECTION_LIMIT
      requires var q, n := PageOf(now.space, page), PageOf(now.size, page);
        n > 0 && q + n <= |pages| && forall i | q <= i < q + n :: pages[i] == UNASSIGNED
      modifies this`sections, this`pages, radix
      ensures Mapped() && radix.nodesNb <= old(radix.nodesNb) + 2 * radix.levels - 1
      ensures D() == Dispatch.RegisterMultipage(old(D()), page, now) && |sections| == |old(sections)| + 1
    {
      hide Size, PhysPageMap.Valid, PageOf, OffsetIn, Edge, At;
      sections := sections + [now];
      PageSet(PageOf(now.space, page), PageOf(now.size, page), |sections| - 1);
    }

    /** register_subpage on the next n bytes of a section. */
    method AddSubpiece(now: Section, ghost d0: Disp, ghost s: Section)
      requires Mapped() && Shape(d0, page) && !s.mr.SubpageIo? && Free(d0, page, s) && Done(d0, D(), page, s, now.space)
      requires s.space <= now.space && now == Piece(s, now.space, now.size) && End(now) <= End(s)
      requires OffsetIn(now.space, page) + now.size <= page && Touch(s.space, End(s), PageOf(now.space, page), page)
      requires ViaSub(s, page, PageOf(now.space, page)) && (now.size > 0 || !Inside(s, PageOf(now.space, page), page))
      requires radix.nodesNb + 2 * radix.levels - 1 <= NIL && |sections| + 3 <= SECTION_LIMIT
      modifies this`sections, this`subs, this`pages, radix
      ensures Mapped() && radix.nodesNb <= old(radix.nodesNb) + 2 * radix.levels - 1 && |sections| <= |old(sections)| + 3
      ensures Done(d0, D(), page, s, End(now))
    {
      hide Mapped, Shape, Free, PageOf, OffsetIn, Touch, ViaSub, Inside, KindOf, Dispatch.RegisterSubpage, AddrDone, KindDone;
      MappedPage();
      SubpieceDone(d0, D(), page, s, now.space, now.size);
      RegisterSubpage(now);
    }

    lemma MappedPage()
      requires Mapped()
      ensures 0 < page < TWO32 && radix.levels > 0 && |pages| == Size(radix.fan, radix.levels)
    {
    }

    /** register_multipage on the whole pages that come next. */
    method AddWhole(now: Section, ghost d0: Disp, ghost s: Section)
      requires Mapped() && Shape(d0, page) && !s.mr.SubpageIo? && Free(d0, page, s) && Done(d0, D(), page, s, now.space)
      requires s.space <= now.space && now == Piece(s, now.space, now.size) && page <= now.size && End(now) <= End(s)
      requires OffsetIn(now.space, page) == 0 == OffsetIn(now.size, page) && !Skewed(s, page)
      requires radix.nodesNb + 2 * radix.levels - 1 <= NIL && |sections| + 3 <= SECTION_LIMIT
      modifies this`sections, this`subs, this`pages, radix
      ensures Mapped() && radix.nodesNb <= old(radix.nodesNb) + 2 * radix.levels - 1 && |sections| <= |old(sections)| + 3
      ensures Done(d0, D(), page, s, End(now))
    {
      MappedPage();
      PagesEmpty(now, d0, s);
      hide Mapped, Free, PageOf, OffsetIn, Skewed, Dispatch.RegisterMultipage, AddrDone, KindDone;
      WholeDone(d0, D(), page, s, now.space, now.size);
      RegisterMultipage(now);
    }

    lemma PagesEmpty(now: Section, d0: Disp, s: Section)
      requires 0 < page && Shape(d0, page) && Free(d0, page, s) && Done(d0, D(), page, s, now.space)
      requires s.space <= now.space && page <= now.size && End(now) <= End(s)
      requires OffsetIn(now.space, page) == 0 == OffsetIn(now.size, page)
      ensures var q, n := PageOf(now.space, page), PageOf(now.size, page);
        n > 0 && q + n <= |pages| && forall i | q <= i < q + n :: pages[i] == UNASSIGNED
    {
      var q, n := PageOf(now.space, page), PageOf(now.size, page);
      PageFacts(now.size, page);
      assert Edge(0, page) == 0;
      assert n > 0;
      hide Free, Done, PageOf, OffsetIn, Edge, Shape;
      forall i | q <= i < q + n
        ensures i < |pages| && pages[i] == UNASSIGNED
      {
        PagesTouched(now.space, now.size, page, i);
        AheadIsEmpty(d0, D(), page, s, now.space, i);
      }
      var last := q + n - 1;
      PagesTouched(now.space, now.size, page, last);
      AheadIsEmpty(d0, D(), page, s, now.space, last);
    }

    /** mem_add */
    method MemAdd(section: Section)
      requires Valid() && section.size > 0 && !section.mr.SubpageIo? && DisjointFrom(section, added)
      requires End(section) <= Edge(|pages|, page)
      requires radix.nodesNb + Rows(Calls(section, page), radix.levels) <= NIL
      requires |sections| + 3 * Calls(section, page) <= SECTION_LIMIT
      modifies this, radix
      ensures Valid() && added == old(added) + [section] && |pages| == old(|pages|)
      ensures radix.nodesNb <= old(radix.nodesNb) + Rows(Calls(section, page), radix.levels)
      ensures |sections| <= |old(sections)| + 3 * Calls(section, page)
    {
      hide Mapped, Agrees, Free, PageOf, OffsetIn, Touch, ViaSub, Inside, Skewed, AddrDone, KindDone, Shape, Rows, Pieces, Edge;
      MappedPage();
      ghost var d0, before := D(), added;
      ghost var top, skewed := radix.nodesNb + Rows(Calls(section, page), radix.levels), Skewed(section, page);
      ghost var full := |sections| + 3 * Calls(section, page);
      AgreesShape(d0, page, added);
      DisjointIsFree(d0, page, added, section);
      NothingDone(d0, page, section);
      var remain := AddHead(section, d0, top, full);
      while remain.size >= page
        invariant Mapped() && Done(d0, D(), page, section, remain.space) && added == before
        invariant section.space <= remain.space && remain == Piece(section, remain.space, remain.size) && End(remain) == End(section)
        invariant OffsetIn(remain.space, page) == 0 || remain.size == 0
        invariant radix.nodesNb + Rows(Pieces(remain.size, page, skewed), radix.levels) <= top
        invariant |sections| + 3 * Pieces(remain.size, page, skewed) <= full
        decreases remain.size
      {
        remain := AddPages(remain, d0, section, top, full);
      }
      if remain.size > 0 {
        LastPiece(section, remain, page);
        EnoughRows(remain.size, 0, page, skewed, radix.levels);
        AddSubpiece(remain, d0, section);
      }
      MappedPage();
      AddedAgrees(d0, D(), page, before, section);
      added := added + [section];
    }

    /** The part of the section before its first page boundary. */
    method AddHead(section: Section, ghost d0: Disp, ghost top: nat, ghost full: nat) returns (remain: Section)
      requires Mapped() && Shape(d0, page) && !section.mr.SubpageIo? && Free(d0, page, section) && section.size > 0
      requires Done(d0, D(), page, section, section.space)
      requires radix.nodesNb + Rows(Calls(section, page), radix.levels) <= top <= NIL
      requires |sections| + 3 * Calls(section, page) <= full <= SECTION_LIMIT
      modifies this`sections, this`subs, this`pages, radix
      ensures Mapped() && Done(d0, D(), page, section, remain.space)
      ensures section.space <= remain.space && remain == Piece(section, remain.space, remain.size) && End(remain) == End(section)
      ensures OffsetIn(remain.space, page) == 0 || remain.size == 0
      ensures radix.nodesNb + Rows(Pieces(remain.size, page, Skewed(section, page)), radix.levels) <= top
      ensures |sections| + 3 * Pieces(remain.size, page, Skewed(section, page)) <= full
    {
      hide Mapped, Free, Touch, ViaSub, Inside, Skewed, AddrDone, KindDone, Shape, Rows, Pieces, PageOf, OffsetIn;
      MappedPage();
      ghost var skewed := Skewed(section, page);
      RowsSplit(Pieces(section.size, page, skewed), 1, radix.levels);
      remain := section;
      if OffsetIn(section.space, page) != 0 || section.size < page {
        HeadPiece(section, page);
        var n := Min(RoundUp(section.space, page) - section.space, section.size);
        NotMoreRows(section.size, n, page, skewed, radix.levels);
        AddSubpiece(section.(size := n), d0, section);
        remain := Section(remain.mr, remain.space + n, remain.region + n, remain.size - n);
      }
    }

    /** One round of the loop over whole pages. */
    method AddPages(remain: Section, ghost d0: Disp, ghost section: Section, ghost top: nat, ghost full: nat)
      returns (rest: Section)
      requires Mapped() && Shape(d0, page) && !section.mr.SubpageIo? && Free(d0, page, section)
      requires Done(d0, D(), page, section, remain.space) && remain.size >= page
      requires section.space <= remain.space && remain == Piece(section, remain.space, remain.size) && End(remain) == End(section)
      requires OffsetIn(remain.space, page) == 0
      requires radix.nodesNb + Rows(Pieces(remain.size, page, Skewed(section, page)), radix.levels) <= top <= NIL
      requires |sections| + 3 * Pieces(remain.size, page, Skewed(section, page)) <= full <= SECTION_LIMIT
      modifies this`sections, this`subs, this`pages, radix
      ensures Mapped() && Done(d0, D(), page, section, rest.space) && rest.size < remain.size
      ensures section.space <= rest.space && rest == Piece(section, rest.space, rest.size) && End(rest) == End(section)
      ensures OffsetIn(rest.space, page) == 0
      ensures radix.nodesNb + Rows(Pieces(rest.size, page, Skewed(section, page)), radix.levels) <= top
      ensures |sections| + 3 * Pieces(rest.size, page, Skewed(section, page)) <= full
    {
      hide Mapped, Free, Touch, ViaSub, Inside, Skewed, AddrDone, KindDone, Shape, Rows, Pieces, PageOf, OffsetIn;
      MappedPage();
      SkewStays(section, page, remain.space);
      WholePages(section, remain, page);
      var n := page;
      if OffsetIn(remain.region, page) == 0 {
        n := remain.size - OffsetIn(remain.size, page);
      }
      EnoughRows(remain.size, n, page, Skewed(section, page), radix.levels);
      if OffsetIn(remain.region, page) != 0 {
        AddSubpiece(remain.(size := n), d0, section);
      } else {
        AddWhole(remain.(size := n), d0, section);
      }
      rest := Section(remain.mr, remain.space + n, remain.region + n, remain.size - n);
    }

    /** A whole update of the map: mem_begin, then mem_add for every section of
        a list of pairwise disjoint ones.  Afterwards lookups answer for the
        list. */
    method Rebuild(list: seq<Section>)
      requires Valid() && Addable(list, Edge(|pages|, page)) && Numbered(list, page, radix.levels)
      modifies this, radix
      ensures Valid() && added == list && |pages| == old(|pages|)
    {
      hide Mapped, Agrees, CallsFor, Rows, Calls, Edge;
      MappedPage();
      MemBegin();
      RowsSplit(0, 0, radix.levels);
      NoCalls(page);
      for k := 0 to |list|
        invariant Valid() && added == list[..k] && |pages| == old(|pages|)
        invariant radix.nodesNb <= Rows(CallsFor(list[..k], page), radix.levels)
        invariant |sections| <= 4 + 3 * CallsFor(list[..k], page)
      {
        MappedPage();
        CallsForPrefix(list, page, k);
        ghost var c, n := CallsFor(list[..k], page), Calls(list[k], page);
        RowsSplit(c, n, radix.levels);
        RowsSplit(c + n, CallsFor(list, page) - c - n, radix.levels);
        MemAdd(list[k]);
        assert list[..k + 1] == list[..k] + [list[k]];
      }
      assert list[..|list|] == list;
    }

    /** The section and offset an access to an address reaches. */
    method Lookup(addr: nat) returns (mr: Region, offset: int)
      requires Valid() && PageOf(addr, page) < |pages|
      ensures (mr, offset) == Expected(added, page, addr)
      ensures forall i | 0 <= i < |added| && added[i].space <= addr < added[i].space + added[i].size && Alone(added, i, addr) ::
        var s, base := added[i], addr - addr % page;
        && offset == addr - s.space + s.region
        && mr == if s.mr.Mr? && s.mr.ram && (base < s.space || s.space + s.size < base + page || (s.region - s.space) % page != 0)
                 then SubpageRam else s.mr
      ensures (forall i | 0 <= i < |added| :: !(added[i].space <= addr < added[i].space + added[i].size)) ==> mr == Unassigned
    {
      MappedPage();
      ExpectedMeans(added, page, addr);
      hide Size, PhysPageMap.Valid, PageOf, OffsetIn, Edge, At, Expected, KindOf;
      var i := radix.PhysPageFind(PageOf(addr, page));
      assert i == pages[PageOf(addr, page)];
      var s := sections[i];
      if s.mr.SubpageIo? {
        assert IsSub(D(), PageOf(addr, page)) && SubOk(D(), page, s.mr.index);
        PageFacts(addr, page);
        OffsetTwice(addr, page);
        mr, offset := SubpageAccess(s.mr.index, addr - s.space + s.region);
      } else {
        mr, offset := s.mr, addr - s.space + s.region;
      }
      assert (mr, offset) == Resolve(D(), page, addr);
    }

    /** subpage_read and subpage_write, as far as where they go to */
    method SubpageAccess(k: nat, addr: nat) returns (mr: Region, offset: int)
      requires page > 0 && SubOk(D(), page, k)
      ensures (mr, offset) == Direct(sections[subs[k].table[OffsetIn(addr, page)]], addr + subs[k].base)
    {
      hide OffsetIn;
      var s := sections[subs[k].table[OffsetIn(addr, page)]];
      mr, offset := s.mr, addr + subs[k].base - s.space + s.region;
    }
  }

  lemma OffsetTwice(addr: nat, P: nat)
    requires P > 0
    ensures OffsetIn(OffsetIn(addr, P), P) == OffsetIn(addr, P)
  {
  }

  /** No other section of the list contains the address. */
  predicate Alone(added: seq<Section>, i: nat, addr: int) {
    forall j | 0 <= j < |added| && j != i :: !(added[j].space <= addr < added[j].space + added[j].size)
  }

  /** What a lookup should give, spelled out. */
  lemma ExpectedMeans(added: seq<Section>, P: nat, addr: nat)
    requires P > 0
    ensures forall i | 0 <= i < |added| && added[i].space <= addr < added[i].space + added[i].size && Alone(added, i, addr) ::
      var s, base := added[i], addr - addr % P;
      Expected(added, P, addr) ==
        (if s.mr.Mr? && s.mr.ram && (base < s.space || s.space + s.size < base + P || (s.region - s.space) % P != 0)
         then SubpageRam else s.mr,
         addr - s.space + s.region)
    ensures (forall i | 0 <= i < |added| :: !(added[i].space <= addr < added[i].space + added[i].size)) ==>
      Expected(added, P, addr).0 == Unassigned
  {
    PageFacts(addr, P);
    forall i | 0 <= i < |added| && added[i].space <= addr < added[i].space + added[i].size && Alone(added, i, addr)
      ensures Search(added, addr) == Some(added[i])
    {
      SearchAlone(added, addr, i);
    }
    if forall i | 0 <= i < |added| :: !(added[i].space <= addr < added[i].space + added[i].size) {
      SearchMisses(added, addr);
    }
    hide Search, PageOf, Edge, Alone;
  }

  lemma {:induction false} SearchAlone(added: seq<Section>, addr: nat, i: nat)
    requires i < |added| && Contains(added[i], addr) && Alone(added, i, addr)
    ensures Search(added, addr) == Some(added[i])
    decreases |added|
  {
    var n := |added| - 1;
    if i < n {
      assert !Contains(added[n], addr);
      SearchAlone(added[..n], addr, i);
    }
  }

  lemma NoCalls(P: nat)
    requires P > 0
    ensures CallsFor([], P) == 0
  {
  }
}
