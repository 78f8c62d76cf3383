/** The software TLB with one region standing for all large pages inserted
    since the last full flush.  Entries hold one page each; flushing an
    address must drop every entry that came from a guest page, of any
    power-of-two size, containing it. */
module SoftTlb {
  import opened Common

  const PAGE: bv64 := 0x1000
  const PAGE_MASK: bv64 := 0xffff_ffff_ffff_f000
  const INVALID: bv64 := 0x08
  const NOTDIRTY: bv64 := 0x10
  const MMIO: bv64 := 0x20
  const NONE: bv64 := 0xffff_ffff_ffff_ffff   // (target_ulong)-1
  const TLB_SIZE: nat := 256

  // ---- masks: high ones, low zeros

  predicate IsMask(m: bv64) { (m << 1) & !m == 0 }

  /** m keeps no bit that n drops. */
  predicate Coarser(m: bv64, n: bv64) { m & n == m }

  /** a and v agree under the mask. */
  predicate Agree(a: bv64, v: bv64, m: bv64) { (a ^ v) & m == 0 }

  function Wider(m: bv64): bv64 { m << 1 }

  predicate PowerOfTwo(s: bv64) { s != 0 && s & (s - 1) == 0 }

  function SizeMask(s: bv64): bv64 { !(s - 1) }

  lemma SizeMaskIsMask(s: bv64)
    requires PowerOfTwo(s)
    ensures IsMask(SizeMask(s))
  {
  }

  lemma MaskMeet(m: bv64, n: bv64)
    requires IsMask(m) && IsMask(n)
    ensures IsMask(Meet(m, n)) && Coarser(Meet(m, n), m) && Coarser(Meet(m, n), n)
  {
  }

  lemma WiderIsSmaller(m: bv64)
    requires IsMask(m) && m != 0
    ensures Wider(m) < m && IsMask(Wider(m)) && Coarser(Wider(m), m)
  {
  }

  lemma CoarserOn(a: bv64, b: bv64, c: bv64)
    requires Coarser(a, b) && Coarser(b, c)
    ensures Coarser(a, c)
  {
  }

  lemma CoarserSelf(a: bv64)
    ensures Coarser(a, a)
  {
  }

  lemma NothingDisagrees(a: bv64, v: bv64)
    ensures Agree(a, v, 0)
  {
  }

  /** No mask between m and mask will do: every mask coarser than m under which
      a and v agree is coarser than mask. */
  ghost predicate Finest(a: bv64, v: bv64, m: bv64, mask: bv64) {
    forall n: bv64 | IsMask(n) && Coarser(n, m) && Agree(a, v, n) :: Coarser(n, mask)
  }

  lemma NextMask(n: bv64, m: bv64)
    requires IsMask(n) && IsMask(m) && Coarser(n, m) && n != m
    ensures Coarser(n, Wider(m))
  {
  }

  /** The mask-widening loop of tlb_add_large_page. */
  method Widen(a: bv64, v: bv64, m: bv64) returns (mask: bv64)
    requires IsMask(m)
    ensures IsMask(mask) && Coarser(mask, m) && Agree(a, v, mask) && Finest(a, v, m, mask)
  {
    hide IsMask, Coarser, Agree, Wider;
    mask := m;
    CoarserSelf(m);
    while !Agree(a, v, mask)
      invariant IsMask(mask) && Coarser(mask, m) && Finest(a, v, m, mask)
      decreases mask
    {
      NothingDisagrees(a, v);
      WiderIsSmaller(mask);
      CoarserOn(Wider(mask), mask, m);
      forall n: bv64 | IsMask(n) && Coarser(n, m) && Agree(a, v, n)
        ensures Coarser(n, Wider(mask))
      {
        NextMask(n, mask);
      }
      mask := Wider(mask);
    }
  }

  // ---- guest pages and the region that stands for the large ones

  function PageBase(addr: bv64): bv64 { addr & PAGE_MASK }

  predicate Aligned(v: bv64) { v & !PAGE_MASK == 0 }

  /** The guest page of size s around v contains the address. */
  predicate InPage(addr: bv64, v: bv64, s: bv64) { addr & SizeMask(s) == v & SizeMask(s) }

  predicate InRegion(addr: bv64, region: bv64, mask: bv64) { addr & mask == region }

  /** The whole guest page lies in the region. */
  predicate Covers(region: bv64, mask: bv64, v: bv64, s: bv64) {
    InRegion(v, region, mask) && Coarser(mask, SizeMask(s))
  }

  lemma CoveredInRegion(region: bv64, mask: bv64, v: bv64, s: bv64, addr: bv64)
    requires Covers(region, mask, v, s) && InPage(addr, v, s)
    ensures InRegion(addr, region, mask)
  {
    UnderCoarser(addr, v, mask, SizeMask(s));
  }

  lemma UnderCoarser(a: bv64, b: bv64, mask: bv64, m: bv64)
    requires Coarser(mask, m) && a & m == b & m
    ensures a & mask == b & mask
  {
  }

  /** A coarser mask keeps addresses of the region together. */
  lemma RegionGrows(region: bv64, mask: bv64, mask': bv64, addr: bv64)
    requires InRegion(addr, region, mask) && Coarser(mask', mask)
    ensures InRegion(addr, Meet(region, mask'), mask')
  {
  }

  lemma AgreeInRegion(region: bv64, v: bv64, mask: bv64)
    requires Agree(region, v, mask)
    ensures InRegion(v, Meet(region, mask), mask)
  {
  }

  /** A region of large pages is never mistaken for the empty one. */
  lemma RegionIsSome(region: bv64, mask: bv64, s: bv64)
    requires PowerOfTwo(s) && s >= PAGE && Coarser(mask, SizeMask(s))
    ensures Meet(region, mask) != NONE
  {
  }

  function Meet(a: bv64, b: bv64): bv64 { a & b }

  /** What was in the region still is. */
  predicate Grown(region: bv64, mask: bv64, region': bv64, mask': bv64) {
    region != NONE ==> region' == Meet(region, mask') && Coarser(mask', mask)
  }

  /** The region grows no more than it has to. */
  ghost predicate Smallest(region: bv64, mask: bv64, v: bv64, s: bv64, mask': bv64) {
    if region == NONE then mask' == SizeMask(s) else Finest(region, v, Meet(SizeMask(s), mask), mask')
  }

  method ExtendRegion(region: bv64, mask: bv64, v: bv64, s: bv64) returns (region': bv64, mask': bv64)
    requires RegionOk(region, mask) && PowerOfTwo(s) && s >= PAGE
    ensures RegionOk(region', mask') && region' != NONE && Covers(region', mask', v, s) && Grown(region, mask, region', mask')
    ensures Smallest(region, mask, v, s, mask')
  {
    hide IsMask, Coarser, Agree, InRegion, SizeMask, PowerOfTwo, Meet, Finest;
    mask' := SizeMask(s);
    SizeMaskIsMask(s);
    CoarserSelf(mask');
    if region == NONE {
      region' := Meet(v, mask');
      RegionIsSome(v, mask', s);
      InOwnRegion(v, mask');
      return;
    }
    MaskMeet(mask', mask);
    var start := Meet(mask', mask);
    mask' := Widen(region, v, start);
    CoarserOn(mask', start, SizeMask(s));
    CoarserOn(mask', start, mask);
    RegionIsSome(region, mask', s);
    AgreeInRegion(region, v, mask');
    region' := Meet(region, mask');
  }

  lemma InOwnRegion(v: bv64, mask: bv64)
    ensures InRegion(v, Meet(v, mask), mask)
  {
  }

  /** A page that the old region covered is covered by the new one. */
  lemma SizedStays(o: Origin, region: bv64, mask: bv64, region': bv64, mask': bv64)
    requires Sized(o, region, mask) && Grown(region, mask, region', mask') && region' != NONE
    ensures Sized(o, region', mask')
  {
    hide Coarser, InRegion, SizeMask, PowerOfTwo, Meet;
    if o.size != PAGE {
      CoarserOn(mask', mask, SizeMask(o.size));
      RegionGrows(region, mask, mask', o.page);
    }
  }

  // ---- entries

  /** The tags of an entry; the host addend is left out. */
  datatype Entry = Entry(read: bv64, write: bv64, code: bv64)

  const EMPTY: Entry := Entry(NONE, NONE, NONE)

  predicate Live(e: Entry) { e != EMPTY }

  /** A tag is absent, or the page with flags in its low bits. */
  predicate TagOf(tag: bv64, v: bv64) { tag == NONE || tag & !(MMIO | NOTDIRTY) == v }

  predicate TagHit(tag: bv64, addr: bv64) { addr == tag & (PAGE_MASK | INVALID) }

  lemma OwnTagHits(tag: bv64, v: bv64)
    requires Aligned(v) && TagOf(tag, v) && tag != NONE
    ensures TagHit(tag, v)
  {
  }

  lemma AbsentNeverHits(v: bv64)
    requires Aligned(v)
    ensures !TagHit(NONE, v)
  {
  }

  lemma HitIsOwn(tag: bv64, v: bv64, addr: bv64)
    requires Aligned(v) && TagOf(tag, v) && Aligned(addr) && TagHit(tag, addr)
    ensures addr == v
  {
  }

  predicate FlagsOnly(flags: bv64) { flags & (MMIO | NOTDIRTY) == flags }

  function Tagged(v: bv64, flags: bv64): bv64 { v | flags }

  lemma TagWithFlags(v: bv64, flags: bv64)
    requires Aligned(v) && FlagsOnly(flags)
    ensures TagOf(Tagged(v, flags), v) && Tagged(v, flags) != NONE
  {
  }

  /** The slot of a page in the table. */
  function Index(v: bv64): (i: nat)
    ensures i < TLB_SIZE
  {
    SlotBits(v) as nat
  }

  function SlotBits(v: bv64): bv8 { ((v >> 12) & 0xff) as bv8 }

  /** The table is indexed by the eight bits above the page offset: pages share
      a slot exactly if they agree in those. */
  lemma SlotsShared(v: bv64, w: bv64)
    ensures Index(v) == Index(w) <==> (v ^ w) & 0xff000 == 0
  {
    SameSlotBits(v, w);
    SameNumber(SlotBits(v), SlotBits(w));
  }

  lemma SameSlotBits(v: bv64, w: bv64)
    ensures SlotBits(v) == SlotBits(w) <==> (v ^ w) & 0xff000 == 0
  {
  }

  lemma AsNumber(x: bv8)
    ensures (x as nat) as bv8 == x
  {
  }

  lemma SameNumber(x: bv8, y: bv8)
    ensures x as nat == y as nat <==> x == y
  {
    AsNumber(x);
    AsNumber(y);
  }

  predicate EntryHit(e: Entry, addr: bv64) { TagHit(e.read, addr) || TagHit(e.write, addr) || TagHit(e.code, addr) }

  /** tlb_flush_entry */
  function Flushed(e: Entry, addr: bv64): Entry { if EntryHit(e, addr) then EMPTY else e }

  /** Where a slot's entry came from: the page, and the size of the guest page
      around it. */
  datatype Origin = Origin(page: bv64, size: bv64)

  predicate TagsOf(e: Entry, v: bv64) { TagOf(e.read, v) && TagOf(e.write, v) && TagOf(e.code, v) }

  predicate Sized(o: Origin, region: bv64, mask: bv64) {
    PowerOfTwo(o.size) && o.size >= PAGE && (o.size == PAGE || (region != NONE && Covers(region, mask, o.page, o.size)))
  }

  predicate EntryOk(e: Entry, i: int, o: Origin, region: bv64, mask: bv64) {
    Aligned(o.page) && Index(o.page) == i && TagsOf(e, o.page) && Sized(o, region, mask)
  }

  predicate RegionOk(region: bv64, mask: bv64) {
    if region == NONE then mask == 0 else IsMask(mask)
  }

  lemma PageIs(addr: bv64)
    ensures Aligned(PageBase(addr))
  {
  }

  lemma SmallPage(addr: bv64, v: bv64)
    requires Aligned(v) && InPage(addr, v, PAGE)
    ensures PageBase(addr) == v
  {
  }

  lemma EmptyNeverHits(addr: bv64)
    requires Aligned(addr)
    ensures !EntryHit(EMPTY, addr)
  {
  }

  lemma LiveHitsOwn(e: Entry, v: bv64)
    requires Aligned(v) && TagsOf(e, v) && Live(e)
    ensures EntryHit(e, v)
  {
    hide TagOf, TagHit, Aligned;
    if e.read != NONE {
      OwnTagHits(e.read, v);
    } else if e.write != NONE {
      OwnTagHits(e.write, v);
    } else {
      OwnTagHits(e.code, v);
    }
  }

  lemma HitIsOrigin(e: Entry, i: int, o: Origin, region: bv64, mask: bv64, addr: bv64)
    requires EntryOk(e, i, o, region, mask) && Aligned(addr) && EntryHit(e, addr)
    ensures o.page == addr
  {
    hide TagHit, TagOf, Aligned, Sized, Index;
    if TagHit(e.read, addr) {
      HitIsOwn(e.read, o.page, addr);
    } else if TagHit(e.write, addr) {
      HitIsOwn(e.write, o.page, addr);
    } else {
      HitIsOwn(e.code, o.page, addr);
    }
  }

  /** An entry that survives the flush of an address outside the region did
      not come from a guest page containing it. */
  lemma SurvivorIsElsewhere(e: Entry, i: int, o: Origin, region: bv64, mask: bv64, addr: bv64)
    requires EntryOk(e, i, o, region, mask) && Live(e) && !InRegion(addr, region, mask)
    requires i == Index(PageBase(addr)) ==> !EntryHit(e, PageBase(addr))
    ensures !InPage(addr, o.page, o.size)
  {
    hide Index, TagsOf, EntryHit, InPage, Covers, InRegion, Aligned, PowerOfTwo;
    if InPage(addr, o.page, o.size) {
      if o.size == PAGE {
        SmallPage(addr, o.page);
        LiveHitsOwn(e, o.page);
        assert false;
      } else {
        CoveredInRegion(region, mask, o.page, o.size, addr);
        assert false;
      }
    }
  }

  /** What an access to memory finds behind a page. */
  datatype Backing = Backing(ram: bool, romd: bool, readonly: bool, clean: bool, watched: bool)

  function MmioIf(b: bool): bv64 { if b then MMIO else 0 }

  function CodeFlags(b: Backing): bv64 { MmioIf(!(b.ram || b.romd)) }

  function ReadFlags(b: Backing): bv64 { CodeFlags(b) | MmioIf(b.watched) }

  function WriteFlags(b: Backing): bv64 {
    if (b.ram && b.readonly) || b.romd then ReadFlags(b) | MMIO
    else if b.ram && b.clean then ReadFlags(b) | NOTDIRTY
    else ReadFlags(b)
  }

  lemma FlagsOk(b: Backing)
    ensures FlagsOnly(CodeFlags(b)) && FlagsOnly(ReadFlags(b)) && FlagsOnly(WriteFlags(b))
  {
  }

  predicate Has(tag: bv64, flag: bv64) { tag & flag != 0 }

  lemma TagFlags(v: bv64, flags: bv64)
    requires Aligned(v) && FlagsOnly(flags)
    ensures Has(Tagged(v, flags), 0x20) <==> Has(flags, 0x20)
    ensures Has(Tagged(v, flags), 0x10) <==> Has(flags, 0x10)
    ensures Tagged(v, flags) == v <==> flags == 0
  {
  }

  lemma FlagsAre(b: Backing)
    ensures Has(CodeFlags(b), 0x20) <==> !(b.ram || b.romd)
    ensures Has(ReadFlags(b), 0x20) <==> !(b.ram || b.romd) || b.watched
    ensures Has(WriteFlags(b), 0x20) <==> !b.ram || b.romd || b.readonly || b.watched
    ensures Has(WriteFlags(b), 0x10) <==> b.ram && !b.romd && !b.readonly && b.clean
    ensures !Has(CodeFlags(b), 0x10) && !Has(ReadFlags(b), 0x10)
    ensures WriteFlags(b) == 0 <==> b.ram && !b.romd && !b.readonly && !b.clean && !b.watched
  {
  }

  /** Which accesses leave the fast path, from what is behind the page: the
      I/O flag 0x20 and the not-dirty flag 0x10 of the three tags.  A store
      goes straight to memory exactly if that is dirty, writable RAM that
      nothing watches. */
  predicate SlowPaths(e: Entry, v: bv64, read: bool, write: bool, exec: bool, b: Backing) {
    && (read ==> (Has(e.read, 0x20) <==> !(b.ram || b.romd) || b.watched) && !Has(e.read, 0x10))
    && (exec ==> (Has(e.code, 0x20) <==> !(b.ram || b.romd)) && !Has(e.code, 0x10))
    && (write ==> (Has(e.write, 0x20) <==> !b.ram || b.romd || b.readonly || b.watched))
    && (write ==> (Has(e.write, 0x10) <==> b.ram && !b.romd && !b.readonly && b.clean))
    && (write ==> (e.write == v <==> b.ram && !b.romd && !b.readonly && !b.clean && !b.watched))
  }

  lemma NewFlags(e: Entry, v: bv64, read: bool, write: bool, exec: bool, b: Backing)
    requires Aligned(v)
    requires e == Entry(if read then Tagged(v, ReadFlags(b)) else NONE, if write then Tagged(v, WriteFlags(b)) else NONE,
                        if exec then Tagged(v, CodeFlags(b)) else NONE)
    ensures SlowPaths(e, v, read, write, exec, b)
  {
    hide Aligned, Tagged, CodeFlags, ReadFlags, WriteFlags, FlagsOnly, Has;
    FlagsOk(b);
    FlagsAre(b);
    TagFlags(v, ReadFlags(b));
    TagFlags(v, WriteFlags(b));
    TagFlags(v, CodeFlags(b));
  }

  lemma NewTags(e: Entry, v: bv64, read: bool, write: bool, exec: bool, b: Backing)
    requires Aligned(v)
    requires e == Entry(if read then Tagged(v, ReadFlags(b)) else NONE, if write then Tagged(v, WriteFlags(b)) else NONE,
                        if exec then Tagged(v, CodeFlags(b)) else NONE)
    ensures TagsOf(e, v) && (Live(e) <==> read || write || exec)
    ensures TagHit(e.read, v) == read && TagHit(e.write, v) == write && TagHit(e.code, v) == exec
  {
    hide Aligned, Tagged, CodeFlags, ReadFlags, WriteFlags, FlagsOnly, TagHit;
    FlagsOk(b);
    AbsentNeverHits(v);
    TagWithFlags(v, ReadFlags(b));
    TagWithFlags(v, WriteFlags(b));
    TagWithFlags(v, CodeFlags(b));
    OwnTagHits(Tagged(v, ReadFlags(b)), v);
    OwnTagHits(Tagged(v, WriteFlags(b)), v);
    OwnTagHits(Tagged(v, CodeFlags(b)), v);
  }

  lemma NewEntryOk(e: Entry, i: int, o: Origin, region: bv64, mask: bv64)
    requires Aligned(o.page) && Index(o.page) == i && TagsOf(e, o.page) && PowerOfTwo(o.size) && o.size >= PAGE
    requires o.size == PAGE || (region != NONE && Covers(region, mask, o.page, o.size))
    ensures EntryOk(e, i, o, region, mask)
  {
    hide Aligned, Index, TagsOf, PowerOfTwo, Covers;
  }

  lemma EntryStays(e: Entry, i: int, o: Origin, region: bv64, mask: bv64, region': bv64, mask': bv64)
    requires EntryOk(e, i, o, region, mask) && Grown(region, mask, region', mask') && region' != NONE
    ensures EntryOk(e, i, o, region', mask')
  {
    hide Aligned, Index, TagsOf, Sized, Grown;
    SizedStays(o, region, mask, region', mask');
  }

  lemma FlushedCases(e: Entry, addr: bv64)
    ensures Flushed(e, addr) == EMPTY || (Flushed(e, addr) == e && !EntryHit(e, addr))
    ensures Flushed(e, addr) == e || EntryHit(e, addr)
  {
  }

  class CpuTlb {
    const modes: nat                   // NB_MMU_MODES
    const table: array2<Entry>         // tlb_table
    var flushAddr: bv64                // tlb_flush_addr
    var flushMask: bv64                // tlb_flush_mask
    ghost var origin: map<(int, int), Origin>

    ghost predicate SlotOk(m: int, i: int)
      requires 0 <= m < table.Length0 && 0 <= i < table.Length1
      reads this, table
    {
      if (m, i) in origin then EntryOk(table[m, i], i, origin[(m, i)], flushAddr, flushMask) else table[m, i] == EMPTY
    }

    ghost predicate Valid()
      reads this, table
    {
      && table.Length0 == modes && table.Length1 == TLB_SIZE && RegionOk(flushAddr, flushMask)
      && (forall k | k in origin :: 0 <= k.0 < modes && 0 <= k.1 < TLB_SIZE && Live(table[k.0, k.1]))
      && (forall m, i | 0 <= m < modes && 0 <= i < TLB_SIZE :: SlotOk(m, i))
    }

    constructor (modes: nat)
      ensures Valid() && this.modes == modes && fresh(table) && origin == map[]
    {
      this.modes := modes;
      table := new Entry[modes, TLB_SIZE]((_, _) => EMPTY);
      flushAddr, flushMask, origin := NONE, 0, map[];
    }

    /** tlb_flush */
    method Flush()
      requires Valid()
      modifies this, table
      ensures Valid() && origin == map[] && flushAddr == NONE && flushMask == 0
      ensures forall m, i | 0 <= m < modes && 0 <= i < TLB_SIZE :: table[m, i] == EMPTY
    {
      for i := 0 to TLB_SIZE
        invariant forall m, j | 0 <= m < modes && 0 <= j < i :: table[m, j] == EMPTY
      {
        for m := 0 to modes
          invariant forall n, j | 0 <= n < modes && 0 <= j < i :: table[n, j] == EMPTY
          invariant forall n | 0 <= n < m :: table[n, i] == EMPTY
        {
          table[m, i] := EMPTY;
        }
      }
      flushAddr, flushMask, origin := NONE, 0, map[];
    }

    /** tlb_flush_entry on one slot in every mode. */
    method FlushColumn(i: nat, page: bv64)
      requires table.Length0 == modes && i < table.Length1
      modifies table
      ensures forall n, j | 0 <= n < modes && 0 <= j < table.Length1 ::
        table[n, j] == if j == i then Flushed(old(table[n, j]), page) else old(table[n, j])
    {
      hide Flushed;
      for m := 0 to modes
        invariant forall n, j | 0 <= n < modes && 0 <= j < table.Length1 ::
          table[n, j] == if n < m && j == i then Flushed(old(table[n, j]), page) else old(table[n, j])
      {
        table[m, i] := Flushed(table[m, i], page);
      }
    }

    /** Flushing an address outside the region of large pages. */
    method FlushSmall(addr: bv64)
      requires Valid() && !InRegion(addr, flushAddr, flushMask)
      modifies this`origin, table
      ensures Valid()
      ensures forall k | k in origin :: !InPage(addr, origin[k].page, origin[k].size)
      ensures forall k | k in origin :: k in old(origin) && origin[k] == old(origin)[k]
      ensures forall m, i | 0 <= m < modes && 0 <= i < TLB_SIZE :: table[m, i] == EMPTY || table[m, i] == old(table[m, i])
      ensures forall m | 0 <= m < modes :: !EntryHit(table[m, Index(PageBase(addr))], PageBase(addr))
      ensures forall m, i | 0 <= m < modes && 0 <= i < TLB_SIZE :: table[m, i] == old(table[m, i]) || EntryHit(old(table[m, i]), PageBase(addr))
    {
      hide Index, EntryHit, InPage, InRegion, EntryOk, RegionOk, PageBase, Flushed, Aligned;
      var page := PageBase(addr);
      PageIs(addr);
      EmptyNeverHits(page);
      var i := Index(page);
      ghost var before := origin;
      FlushColumn(i, page);
      forall m, j | 0 <= m < modes && 0 <= j < TLB_SIZE
        ensures table[m, j] == EMPTY || (table[m, j] == old(table[m, j]) && (j == i ==> !EntryHit(table[m, j], page)))
        ensures table[m, j] == old(table[m, j]) || EntryHit(old(table[m, j]), page)
      {
        FlushedCases(old(table[m, j]), page);
      }
      origin := map k | k in before && Live(table[k.0, k.1]) :: before[k];
      forall m, j | 0 <= m < modes && 0 <= j < TLB_SIZE
        ensures SlotOk(m, j)
      {
        assert old(SlotOk(m, j));
      }
      forall k | k in origin
        ensures !InPage(addr, origin[k].page, origin[k].size)
      {
        assert SlotOk(k.0, k.1);
        SurvivorIsElsewhere(table[k.0, k.1], k.1, origin[k], flushAddr, flushMask, addr);
      }
    }

    /** tlb_flush_page: afterwards nothing is left from any guest page that
        contains the address, and no lookup of the address hits. */
    method FlushPage(addr: bv64)
      requires Valid()
      modifies this, table
      ensures Valid()
      ensures forall k | k in origin :: !InPage(addr, origin[k].page, origin[k].size)
      ensures forall k | k in origin :: k in old(origin) && origin[k] == old(origin)[k]
      ensures forall m, i | 0 <= m < modes && 0 <= i < TLB_SIZE :: table[m, i] == EMPTY || table[m, i] == old(table[m, i])
      ensures forall m | 0 <= m < modes :: !EntryHit(table[m, Index(PageBase(addr))], PageBase(addr))
      ensures !old(InRegion(addr, flushAddr, flushMask)) ==> forall m, i | 0 <= m < modes && 0 <= i < TLB_SIZE ::
        table[m, i] == old(table[m, i]) || EntryHit(old(table[m, i]), PageBase(addr))
    {
      hide Index, EntryHit, InPage, InRegion, EntryOk, RegionOk, PageBase, Aligned;
      if InRegion(addr, flushAddr, flushMask) {
        PageIs(addr);
        EmptyNeverHits(PageBase(addr));
        Flush();
      } else {
        FlushSmall(addr);
      }
    }

    /** A lookup that hits finds an entry that came from its own page. */
    lemma HitHasOrigin(m: int, addr: bv64)
      requires Valid() && 0 <= m < modes && EntryHit(table[m, Index(PageBase(addr))], PageBase(addr))
      ensures (m, Index(PageBase(addr)) as int) in origin && origin[(m, Index(PageBase(addr)) as int)].page == PageBase(addr)
    {
      hide Index, PageBase, RegionOk, EntryHit, EntryOk, Aligned;
      var i := Index(PageBase(addr));
      assert SlotOk(m, i);
      PageIs(addr);
      EmptyNeverHits(PageBase(addr));
      assert (m, i as int) in origin;
      HitIsOrigin(table[m, i], i, origin[(m, i as int)], flushAddr, flushMask, PageBase(addr));
    }

    /** tlb_add_large_page: the region grows to cover the new page and all it
        covered before. */
    method AddLargePage(vaddr: bv64, size: bv64)
      requires Valid() && PowerOfTwo(size) && size >= PAGE
      modifies this`flushAddr, this`flushMask
      ensures Valid() && flushAddr != NONE && Covers(flushAddr, flushMask, vaddr, size)
      ensures Grown(old(flushAddr), old(flushMask), flushAddr, flushMask)
      ensures Smallest(old(flushAddr), old(flushMask), vaddr, size, flushMask)
    {
      hide RegionOk, PowerOfTwo, Covers, EntryOk, Grown, Live, Smallest;
      ghost var region, mask := flushAddr, flushMask;
      flushAddr, flushMask := ExtendRegion(flushAddr, flushMask, vaddr, size);
      forall m, j | 0 <= m < modes && 0 <= j < TLB_SIZE
        ensures SlotOk(m, j)
      {
        assert old(SlotOk(m, j));
        if (m, j) in origin {
          EntryStays(table[m, j], j, origin[(m, j)], region, mask, flushAddr, flushMask);
        }
      }
    }

    /** The new entry takes its slot. */
    method Install(mmuIdx: nat, i: nat, entry: Entry, ghost o: Origin)
      requires Valid() && mmuIdx < modes && i < TLB_SIZE && EntryOk(entry, i, o, flushAddr, flushMask)
      modifies this`origin, table
      ensures Valid()
      ensures var key := (mmuIdx as int, i as int);
        origin == if Live(entry) then old(origin)[key := o] else old(origin) - {key}
      ensures forall m, j | 0 <= m < modes && 0 <= j < TLB_SIZE && (m, j) != (mmuIdx, i) :: table[m, j] == old(table[m, j])
      ensures table[mmuIdx, i] == entry
    {
      hide EntryOk, RegionOk;
      ghost var key := (mmuIdx as int, i as int);
      table[mmuIdx, i] := entry;
      origin := if Live(entry) then origin[key := o] else origin - {key};
      forall m, j | 0 <= m < modes && 0 <= j < TLB_SIZE
        ensures SlotOk(m, j)
      {
        assert old(SlotOk(m, j));
      }
    }

    /** The tags of a new entry. */
    method NewEntry(vaddr: bv64, read: bool, write: bool, exec: bool, backing: Backing) returns (entry: Entry)
      requires Aligned(vaddr)
      ensures TagsOf(entry, vaddr) && (Live(entry) <==> read || write || exec)
      ensures TagHit(entry.read, vaddr) == read && TagHit(entry.write, vaddr) == write && TagHit(entry.code, vaddr) == exec
      ensures SlowPaths(entry, vaddr, read, write, exec, backing)
    {
      hide *;
      entry := Entry(if read then Tagged(vaddr, ReadFlags(backing)) else NONE,
                     if write then Tagged(vaddr, WriteFlags(backing)) else NONE,
                     if exec then Tagged(vaddr, CodeFlags(backing)) else NONE);
      NewTags(entry, vaddr, read, write, exec, backing);
      NewFlags(entry, vaddr, read, write, exec, backing);
    }

    /** tlb_set_page, as far as the tags go */
    method SetPage(vaddr: bv64, read: bool, write: bool, exec: bool, mmuIdx: nat, size: bv64, backing: Backing)
      requires Valid() && Aligned(vaddr) && mmuIdx < modes && PowerOfTwo(size) && size >= PAGE
      modifies this, table
      ensures Valid()
      ensures var key := (mmuIdx as int, Index(vaddr) as int);
        origin == if read || write || exec then old(origin)[key := Origin(vaddr, size)] else old(origin) - {key}
      ensures forall m, i | 0 <= m < modes && 0 <= i < TLB_SIZE && (m, i) != (mmuIdx, Index(vaddr)) :: table[m, i] == old(table[m, i])
      ensures var e := table[mmuIdx, Index(vaddr)];
        TagHit(e.read, vaddr) == read && TagHit(e.write, vaddr) == write && TagHit(e.code, vaddr) == exec
      ensures SlowPaths(table[mmuIdx, Index(vaddr)], vaddr, read, write, exec, backing)
      ensures size == PAGE ==> flushAddr == old(flushAddr) && flushMask == old(flushMask)
    {
      hide TagHit, SlowPaths, Index, TagsOf, RegionOk, PowerOfTwo, Aligned, Tagged, CodeFlags, ReadFlags, WriteFlags, Covers, EntryOk, Live, Valid;
      if size != PAGE {
        AddLargePage(vaddr, size);
      }
      var entry := NewEntry(vaddr, read, write, exec, backing);
      NewEntryOk(entry, Index(vaddr), Origin(vaddr, size), flushAddr, flushMask);
      Install(mmuIdx, Index(vaddr), entry, Origin(vaddr, size));
    }
  }
}
