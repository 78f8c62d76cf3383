/** How mem_add makes a section visible piece by piece, and what it means for
    all sections added since mem_begin: a lookup finds what a search of the
    list of sections finds. */
module DispatchSteps {
  import opened Common
  import opened PhysTree
  import opened Slots
  import opened Dispatch

  datatype Kind = Empty | Sub | Whole

  function KindOf(d: Disp, q: nat): Kind
    requires q < |d.pages|
  {
    if d.pages[q] == UNASSIGNED then Empty else if IsSub(d, q) then Sub else Whole
  }

  predicate Touch(lo: int, hi: int, q: nat, P: nat) { lo < hi && lo < Edge(q, P) + P && Edge(q, P) < hi }

  predicate Inside(s: Section, q: nat, P: nat) { s.space <= Edge(q, P) && Edge(q, P) + P <= End(s) }

  /** Pages and region do not line up. */
  predicate Skewed(s: Section, P: nat)
    requires P > 0
  {
    (s.region - s.space) % P != 0
  }

  /** Page q of the section is reached through a subpage. */
  predicate ViaSub(s: Section, P: nat, q: nat)
    requires P > 0
  {
    !Inside(s, q, P) || Skewed(s, P)
  }

  /** What an address of the section should resolve to. */
  function Target(s: Section, P: nat, addr: nat): (Region, int)
    requires P > 0
  {
    Direct(s.(mr := Reached(s.mr, ViaSub(s, P, PageOf(addr, P)))), addr)
  }

  function Piece(s: Section, at: nat, n: nat): Section
    requires s.space <= at
  {
    Section(s.mr, at, s.region + (at - s.space), n)
  }

  /** The pages a section needs are free for it: none is mapped as a whole,
      and those it fills are not mapped at all. */
  ghost predicate Free(d: Disp, P: nat, s: Section) {
    forall q: nat | Touch(s.space, End(s), q, P) ::
      q < |d.pages| && KindOf(d, q) != Whole && (Inside(s, q, P) ==> KindOf(d, q) == Empty)
  }

  ghost predicate AddrDone(d0: Disp, d: Disp, P: nat, s: Section, at: nat)
    requires Shape(d0, P) && Shape(d, P)
  {
    |d.pages| == |d0.pages| &&
    forall addr: nat | PageOf(addr, P) < |d0.pages| ::
      Resolve(d, P, addr) == if s.space <= addr < at then Target(s, P, addr) else Resolve(d0, P, addr)
  }

  ghost predicate KindDone(d0: Disp, d: Disp, P: nat, s: Section, at: nat)
    requires P > 0
  {
    |d.pages| == |d0.pages| &&
    forall q | 0 <= q < |d0.pages| ::
      if Touch(s.space, at, q, P) then KindOf(d, q) == if ViaSub(s, P, q) then Sub else Whole
      else KindOf(d, q) == KindOf(d0, q) || (KindOf(d, q) == Sub && Touch(s.space, End(s), q, P) && !Inside(s, q, P))
  }

  /** The section has been made visible up to `at`. */
  ghost predicate Done(d0: Disp, d: Disp, P: nat, s: Section, at: nat)
    requires Shape(d0, P)
  {
    Shape(d, P) && s.space <= at <= End(s) && AddrDone(d0, d, P, s, at) && KindDone(d0, d, P, s, at)
  }

  // ---- kinds of pages

  lemma SubpageKinds(d: Disp, P: nat, now: Section)
    requires Shape(d, P) && !now.mr.SubpageIo? && PageOf(now.space, P) < |d.pages|
    requires KindOf(d, PageOf(now.space, P)) != Whole
    ensures var d' := RegisterSubpage(d, P, now);
      |d'.pages| == |d.pages| &&
      forall q | 0 <= q < |d.pages| :: KindOf(d', q) == if q == PageOf(now.space, P) then Sub else KindOf(d, q)
  {
    hide PageOf, OffsetIn, Edge, Filled;
  }

  lemma MultipageKinds(d: Disp, P: nat, now: Section)
    requires Shape(d, P) && !now.mr.SubpageIo?
    ensures var d' := RegisterMultipage(d, P, now);
      |d'.pages| == |d.pages| &&
      forall q | 0 <= q < |d.pages| ::
        KindOf(d', q) == if PageOf(now.space, P) <= q < PageOf(now.space, P) + PageOf(now.size, P) then Whole else KindOf(d, q)
  {
    hide PageOf, OffsetIn, Edge;
  }

  // ---- one piece

  lemma TouchGrows(lo: int, at: int, n: nat, q: nat, P: nat)
    requires lo <= at && P > 0
    ensures Touch(lo, at + n, q, P) <==> Touch(lo, at, q, P) || Touch(at, at + n, q, P)
  {
    hide Edge;
  }

  /** A piece inside one page touches that page only. */
  lemma OnePage(at: nat, n: nat, P: nat, q: nat)
    requires P > 0 && OffsetIn(at, P) + n <= P
    ensures Touch(at, at + n, q, P) <==> n > 0 && q == PageOf(at, P)
  {
    PageFacts(at, P);
    if q != PageOf(at, P) {
      EdgesApart(q, PageOf(at, P), P);
    }
    hide Edge, PageOf, OffsetIn;
  }

  lemma SubpieceAddr(d0: Disp, d: Disp, d': Disp, P: nat, s: Section, at: nat, n: nat)
    requires Shape(d0, P) && Shape(d, P) && Shape(d', P) && s.space <= at && OffsetIn(at, P) + n <= P
    requires AddrDone(d0, d, P, s, at) && ViaSub(s, P, PageOf(at, P))
    requires var now := Piece(s, at, n); Shown(d, d', P, at, at + n, now.(mr := Reached(s.mr, true)))
    ensures AddrDone(d0, d', P, s, at + n)
  {
    hide Shape, Resolve, ViaSub;
    forall addr: nat | PageOf(addr, P) < |d0.pages|
      ensures Resolve(d', P, addr) == if s.space <= addr < at + n then Target(s, P, addr) else Resolve(d0, P, addr)
    {
      if at <= addr < at + n {
        PageFacts(at, P);
        PageIs(addr, PageOf(at, P), P);
      }
      hide PageOf, OffsetIn, Edge;
    }
  }

  lemma SubpieceKind(d0: Disp, d: Disp, d': Disp, P: nat, s: Section, at: nat, n: nat)
    requires P > 0 && s.space <= at && OffsetIn(at, P) + n <= P && at + n <= End(s)
    requires KindDone(d0, d, P, s, at) && ViaSub(s, P, PageOf(at, P)) && PageOf(at, P) < |d0.pages|
    requires n > 0 || (Touch(s.space, End(s), PageOf(at, P), P) && !Inside(s, PageOf(at, P), P))
    requires |d'.pages| == |d.pages| &&
      forall q | 0 <= q < |d.pages| :: KindOf(d', q) == if q == PageOf(at, P) then Sub else KindOf(d, q)
    ensures KindDone(d0, d', P, s, at + n)
  {
    forall q | 0 <= q < |d0.pages|
      ensures if Touch(s.space, at + n, q, P) then KindOf(d', q) == if ViaSub(s, P, q) then Sub else Whole
        else KindOf(d', q) == KindOf(d0, q) || (KindOf(d', q) == Sub && Touch(s.space, End(s), q, P) && !Inside(s, q, P))
    {
      TouchGrows(s.space, at, n, q, P);
      OnePage(at, n, P, q);
      hide PageOf, OffsetIn, Edge, Touch, Inside, ViaSub, KindOf;
    }
  }

  /** register_subpage on the next piece of the section. */
  lemma SubpieceDone(d0: Disp, d: Disp, P: nat, s: Section, at: nat, n: nat)
    requires Shape(d0, P) && P < TWO32 && !s.mr.SubpageIo? && Free(d0, P, s) && Done(d0, d, P, s, at) && at + n <= End(s)
    requires OffsetIn(at, P) + n <= P && ViaSub(s, P, PageOf(at, P)) && Touch(s.space, End(s), PageOf(at, P), P)
    requires n > 0 || !Inside(s, PageOf(at, P), P)
    ensures PageOf(at, P) < |d.pages| && KindOf(d, PageOf(at, P)) != Whole && Done(d0, RegisterSubpage(d, P, Piece(s, at, n)), P, s, at + n)
  {
    var q := PageOf(at, P);
    var now := Piece(s, at, n);
    assert q < |d0.pages| && KindOf(d0, q) != Whole;
    assert KindOf(d, q) != Whole;
    KindOpen(d, q);
    SubpageShown(d, P, now);
    SubpageKinds(d, P, now);
    var d' := RegisterSubpage(d, P, now);
    hide Shape, RegisterSubpage, Shown, KindOf, ViaSub, Touch, Inside, KindDone, AddrDone, PageOf, OffsetIn, Free;
    SubpieceAddr(d0, d, d', P, s, at, n);
    SubpieceKind(d0, d, d', P, s, at, n);
  }

  lemma KindOpen(d: Disp, q: nat)
    requires q < |d.pages| && KindOf(d, q) != Whole
    ensures IsSub(d, q) || d.pages[q] == UNASSIGNED
  {
  }

  // ---- whole pages at once

  lemma PagesTouched(at: nat, n: nat, P: nat, q: nat)
    requires P > 0 && OffsetIn(at, P) == 0 == OffsetIn(n, P)
    ensures Touch(at, at + n, q, P) <==> PageOf(at, P) <= q < PageOf(at, P) + PageOf(n, P)
    ensures Touch(at, at + n, q, P) ==> at <= Edge(q, P) && Edge(q, P) + P <= at + n
  {
    PageFacts(at, P);
    PageFacts(n, P);
    PagesOfRange(q, PageOf(at, P), PageOf(n, P), P);
    hide Edge, PageOf, OffsetIn;
  }

  lemma WholeAddr(d0: Disp, d: Disp, d': Disp, P: nat, s: Section, at: nat, n: nat)
    requires Shape(d0, P) && Shape(d, P) && Shape(d', P) && s.space <= at && at + n <= End(s)
    requires OffsetIn(at, P) == 0 == OffsetIn(n, P) && !Skewed(s, P)
    requires AddrDone(d0, d, P, s, at) && Shown(d, d', P, at, at + n, Piece(s, at, n))
    ensures AddrDone(d0, d', P, s, at + n)
  {
    hide Shape, Resolve, Skewed;
    forall addr: nat | PageOf(addr, P) < |d0.pages|
      ensures Resolve(d', P, addr) == if s.space <= addr < at + n then Target(s, P, addr) else Resolve(d0, P, addr)
    {
      if at <= addr < at + n {
        PageFacts(addr, P);
        PagesTouched(at, n, P, PageOf(addr, P));
      }
      hide PageOf, OffsetIn, Edge;
    }
  }

  lemma WholeKind(d0: Disp, d: Disp, d': Disp, P: nat, s: Section, at: nat, n: nat)
    requires P > 0 && s.space <= at && at + n <= End(s) && OffsetIn(at, P) == 0 == OffsetIn(n, P) && !Skewed(s, P)
    requires KindDone(d0, d, P, s, at)
    requires |d'.pages| == |d.pages| && forall q | 0 <= q < |d.pages| ::
      KindOf(d', q) == if PageOf(at, P) <= q < PageOf(at, P) + PageOf(n, P) then Whole else KindOf(d, q)
    ensures KindDone(d0, d', P, s, at + n)
  {
    forall q | 0 <= q < |d0.pages|
      ensures if Touch(s.space, at + n, q, P) then KindOf(d', q) == if ViaSub(s, P, q) then Sub else Whole
        else KindOf(d', q) == KindOf(d0, q) || (KindOf(d', q) == Sub && Touch(s.space, End(s), q, P) && !Inside(s, q, P))
    {
      TouchGrows(s.space, at, n, q, P);
      PagesTouched(at, n, P, q);
      hide PageOf, OffsetIn, Edge, Touch, KindOf, Skewed;
    }
  }

  /** register_multipage on the whole pages that come next. */
  lemma WholeDone(d0: Disp, d: Disp, P: nat, s: Section, at: nat, n: nat)
    requires Shape(d0, P) && !s.mr.SubpageIo? && Free(d0, P, s) && Done(d0, d, P, s, at) && at + n <= End(s)
    requires OffsetIn(at, P) == 0 == OffsetIn(n, P) && !Skewed(s, P)
    ensures Done(d0, RegisterMultipage(d, P, Piece(s, at, n)), P, s, at + n)
  {
    var now := Piece(s, at, n);
    MultipageShown(d, P, now);
    MultipageKinds(d, P, now);
    var d' := RegisterMultipage(d, P, now);
    hide Shape, RegisterMultipage, Shown, KindOf, Skewed, KindDone, AddrDone, PageOf, OffsetIn, Free;
    WholeAddr(d0, d, d', P, s, at, n);
    WholeKind(d0, d, d', P, s, at, n);
  }

  /** Whole pages still ahead are not mapped to anything yet. */
  lemma AheadIsEmpty(d0: Disp, d: Disp, P: nat, s: Section, at: nat, q: nat)
    requires Shape(d0, P) && Free(d0, P, s) && Done(d0, d, P, s, at)
    requires at <= Edge(q, P) && Edge(q, P) + P <= End(s)
    ensures q < |d.pages| && d.pages[q] == UNASSIGNED
  {
    assert Touch(s.space, End(s), q, P) && Inside(s, q, P) && !Touch(s.space, at, q, P);
  }

  /** The section does not line up with pages now if it does not later. */
  lemma SkewStays(s: Section, P: nat, at: nat)
    requires P > 0 && s.space <= at && OffsetIn(at, P) == 0
    ensures Skewed(s, P) <==> OffsetIn(s.region + (at - s.space), P) != 0
  {
    var k := at / P;
    assert at == P * k;
    var x := s.region - s.space;
    var r := x % P;
    var m := x / P;
    assert x == P * m + r;
    assert P * k + P * m == P * (k + m);
    MultipleUnique(P, k + m, x + at);
  }

  lemma NothingDone(d: Disp, P: nat, s: Section)
    requires Shape(d, P)
    ensures Done(d, d, P, s, s.space)
  {
    hide Resolve, Shape, KindOf;
  }

  // ---- all sections added so far

  predicate Contains(s: Section, addr: int) { s.space <= addr < End(s) }

  /** The section of the list that contains the address. */
  function Search(added: seq<Section>, addr: nat): Option<Section> {
    if added == [] then None
    else if Contains(added[|added| - 1], addr) then Some(added[|added| - 1])
    else Search(added[..|added| - 1], addr)
  }

  /** What a search of the list says an access should reach. */
  function Expected(added: seq<Section>, P: nat, addr: nat): (Region, int)
    requires P > 0
  {
    match Search(added, addr)
    case None => (Unassigned, addr)
    case Some(s) => Target(s, P, addr)
  }

  /** In a list of disjoint sections the order does not matter: the search
      finds the one section that contains the address, whichever it is. */
  lemma {:induction false} SearchFinds(added: seq<Section>, addr: nat, i: nat)
    requires forall j, k | 0 <= j < k < |added| :: End(added[j]) <= added[k].space || End(added[k]) <= added[j].space
    requires i < |added| && Contains(added[i], addr)
    ensures Search(added, addr) == Some(added[i])
    decreases |added|
  {
    var n := |added| - 1;
    if i < n {
      assert End(added[i]) <= added[n].space || End(added[n]) <= added[i].space;
      SearchFinds(added[..n], addr, i);
    }
  }

  lemma {:induction false} SearchMisses(added: seq<Section>, addr: nat)
    requires forall i | 0 <= i < |added| :: !Contains(added[i], addr)
    ensures Search(added, addr) == None
  {
    if added != [] {
      SearchMisses(added[..|added| - 1], addr);
    }
  }

  /** A lookup gives the section and offset a linear search gives, with the
      section's own region, exactly when the address is not RAM behind a
      subpage; then it gives the built-in subpage-RAM region instead. */
  lemma RegionKeptIff(added: seq<Section>, P: nat, addr: nat, s: Section)
    requires P > 0 && Search(added, addr) == Some(s)
    ensures Expected(added, P, addr).1 == Direct(s, addr).1
    ensures Expected(added, P, addr) == Direct(s, addr) <==> !(s.mr.Mr? && s.mr.ram && ViaSub(s, P, PageOf(addr, P)))
  {
    hide PageOf, ViaSub;
  }

  /** Sixteen bytes of RAM on a page of their own: the region is lost. */
  lemma SmallRamLosesRegion(s: Section)
    requires s == Section(Mr(7, true), 0x1000, 0, 16)
    ensures Expected([s], 4096, 0x1008) == (SubpageRam, 8) && Direct(s, 0x1008) == (Mr(7, true), 8)
  {
    assert Search([s], 0x1008) == Some(s);
    PageIs(0x1008, 1, 4096);
    assert !Inside(s, 1, 4096);
  }

  predicate DisjointFrom(s: Section, added: seq<Section>) {
    forall i | 0 <= i < |added| :: End(s) <= added[i].space || End(added[i]) <= s.space
  }

  /** Lookups agree with the search; a page is mapped exactly if a section
      touches it, and mapped as a whole only if one fills it. */
  ghost predicate Agrees(d: Disp, P: nat, added: seq<Section>) {
    && Shape(d, P)
    && (forall addr: nat | PageOf(addr, P) < |d.pages| :: Resolve(d, P, addr) == Expected(added, P, addr))
    && (forall q | 0 <= q < |d.pages| && KindOf(d, q) != Empty :: exists i :: 0 <= i < |added| && Touch(added[i].space, End(added[i]), q, P))
    && (forall q | 0 <= q < |d.pages| && KindOf(d, q) == Whole :: exists i :: 0 <= i < |added| && Inside(added[i], q, P))
  }

  lemma BegunAgrees(n: nat, P: nat)
    requires P > 0
    ensures Agrees(Begun(n), P, [])
  {
    hide PageOf, OffsetIn, Edge;
  }

  /** A section that overlaps none of those added finds its pages free. */
  lemma DisjointIsFree(d: Disp, P: nat, added: seq<Section>, s: Section)
    requires Agrees(d, P, added) && DisjointFrom(s, added) && End(s) <= Edge(|d.pages|, P)
    ensures Free(d, P, s)
  {
    forall q: nat | Touch(s.space, End(s), q, P)
      ensures q < |d.pages| && KindOf(d, q) != Whole && (Inside(s, q, P) ==> KindOf(d, q) == Empty)
    {
      if q >= |d.pages| {
        EdgeMonotone(|d.pages|, q, P);
        assert false;
      }
      hide Edge, Resolve, Shape, KindOf;
      assert forall i | 0 <= i < |added| :: !Inside(added[i], q, P);
      assert Inside(s, q, P) ==> forall i | 0 <= i < |added| :: !Touch(added[i].space, End(added[i]), q, P);
    }
  }

  /** Once a section is fully visible, lookups agree with the longer list. */
  lemma AddedAgrees(d0: Disp, d: Disp, P: nat, added: seq<Section>, s: Section)
    requires Agrees(d0, P, added) && Done(d0, d, P, s, End(s))
    ensures Agrees(d, P, added + [s])
  {
    var more := added + [s];
    assert more[..|more| - 1] == added;
    hide Shape, Resolve, PageOf, Edge;
    forall addr: nat | PageOf(addr, P) < |d.pages|
      ensures Resolve(d, P, addr) == Expected(more, P, addr)
    {
      assert Resolve(d0, P, addr) == Expected(added, P, addr);
    }
    AddedKinds(d0, d, P, added, s);
  }

  lemma AddedKinds(d0: Disp, d: Disp, P: nat, added: seq<Section>, s: Section)
    requires Agrees(d0, P, added) && Done(d0, d, P, s, End(s))
    ensures var more := added + [s]; forall q | 0 <= q < |d.pages| ::
      (KindOf(d, q) != Empty ==> exists i :: 0 <= i < |more| && Touch(more[i].space, End(more[i]), q, P)) &&
      (KindOf(d, q) == Whole ==> exists i :: 0 <= i < |more| && Inside(more[i], q, P))
  {
    hide Shape, Resolve, PageOf, Edge;
    var more := added + [s];
    forall q | 0 <= q < |d.pages|
      ensures KindOf(d, q) != Empty ==> exists i :: 0 <= i < |more| && Touch(more[i].space, End(more[i]), q, P)
      ensures KindOf(d, q) == Whole ==> exists i :: 0 <= i < |more| && Inside(more[i], q, P)
    {
      hide KindOf, Touch, Inside;
      if Touch(s.space, End(s), q, P) {
        assert more[|added|] == s;
      } else {
        if KindOf(d, q) != Empty {
          var i :| 0 <= i < |added| && Touch(added[i].space, End(added[i]), q, P);
          assert more[i] == added[i];
        }
        if KindOf(d, q) == Whole {
          var i :| 0 <= i < |added| && Inside(added[i], q, P);
          assert more[i] == added[i];
        }
      }
    }
  }
}
