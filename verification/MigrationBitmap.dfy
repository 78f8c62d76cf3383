/** The migration bitmap: which guest pages still have to be sent, its counter
    of dirty pages, and how the dirty log is folded into it.  Pages are
    numbered over the whole RAM address space; RAM blocks are disjoint runs of
    pages with gaps between them. */
module MigrationBitmap {
  import opened Common

  datatype RamBlock = RamBlock(id: string, base: nat, pages: nat) {
    function End(): nat { base + pages }
    predicate Has(p: int) { base <= p < base + pages }
  }

  predicate InRam(blocks: seq<RamBlock>, p: int) {
    exists i :: 0 <= i < |blocks| && blocks[i].Has(p)
  }

  predicate Disjoint(a: RamBlock, b: RamBlock) { a.End() <= b.base || b.End() <= a.base }

  predicate Layout(blocks: seq<RamBlock>) {
    && (forall i | 0 <= i < |blocks| :: blocks[i].pages > 0)
    && (forall i, j | 0 <= i < j < |blocks| :: Disjoint(blocks[i], blocks[j]))
  }

  function RamPages(blocks: seq<RamBlock>): (r: set<int>)
    ensures forall p :: p in r <==> InRam(blocks, p)
  {
    if blocks == [] then {}
    else
      var rest := RamPages(blocks[1..]);
      var r := Range(blocks[0].base, blocks[0].End()) + rest;
      assert forall p :: p in r <==> InRam(blocks, p) by {
        forall p
          ensures p in r <==> InRam(blocks, p)
        {
          InRamSplit(blocks, p);
        }
      }
      r
  }

  lemma InRamSplit(blocks: seq<RamBlock>, p: int)
    requires blocks != []
    ensures InRam(blocks, p) <==> blocks[0].Has(p) || InRam(blocks[1..], p)
  {
    if InRam(blocks[1..], p) {
      var i :| 0 <= i < |blocks[1..]| && blocks[1..][i].Has(p);
      assert blocks[i + 1].Has(p);
    }
    if InRam(blocks, p) {
      var i :| 0 <= i < |blocks| && blocks[i].Has(p);
      assert i > 0 ==> blocks[1..][i - 1].Has(p);
    }
  }

  /** last_ram_offset() in pages: the number of bits in the bitmap */
  function LastPage(blocks: seq<RamBlock>): (n: nat)
    ensures forall p :: InRam(blocks, p) ==> p < n
  {
    if blocks == [] then 0
    else
      assert forall p :: InRam(blocks, p) ==> blocks[0].Has(p) || InRam(blocks[1..], p) by {
        forall p | InRam(blocks, p)
          ensures blocks[0].Has(p) || InRam(blocks[1..], p)
        {
          InRamSplit(blocks, p);
        }
      }
      Max(blocks[0].End(), LastPage(blocks[1..]))
  }

  /** find_next_bit */
  function FindNext(bits: set<int>, size: int, nr: int): (x: int)
    ensures nr < size ==> nr <= x <= size
    ensures nr >= size ==> x == size
    ensures x < size ==> x in bits
    ensures forall p | nr <= p < x :: p !in bits
    decreases size - nr
  {
    if nr >= size then size else if nr in bits then nr else FindNext(bits, size, nr + 1)
  }

  /** The bitmap, the dirty log and migration_dirty_pages. */
  datatype Marks = Marks(bits: set<int>, log: set<int>, count: int)

  /** The counter is the number of marked pages inside RAM blocks. */
  predicate Counted(blocks: seq<RamBlock>, m: Marks) {
    m.count == |m.bits * RamPages(blocks)|
  }

  // ---- migration_bitmap_sync_range

  predicate WordAligned(b: RamBlock, word: int)
    requires word > 0
  {
    b.base % word == 0
  }

  /** BIT_WORD(p) */
  function WordOf(p: nat, word: int): (r: nat)
    requires word > 0
    ensures r * word == p - p % word
  {
    assert p == word * (p / word) + p % word;
    p / word
  }

  /** BITS_TO_LONGS(n) */
  function WordCount(n: nat, word: int): (r: nat)
    requires word > 0
    ensures r * word == RoundUp(n, word)
  {
    var m := n + word - 1;
    assert m == word * (m / word) + m % word;
    m / word
  }

  /** The loop over words counts them in an int, up to a bound that is computed
      as an unsigned long from a word number and an int.  Counting on where the
      int wraps, this is where it ends. */
  function LoopEnd(page: nat, nr: nat): int {
    var k, bound := Int32(page), page + Int32(nr);
    if bound < 0 then 2 * INT_TOP + bound
    else if k < 0 then k
    else Max(k, Min(bound, INT_TOP))
  }

  /** The bits of the words it visits. */
  function WordsReached(page: nat, nr: nat, word: int): set<int>
    requires word > 0
  {
    var end := LoopEnd(page, nr);
    Range(Int32(page) * word, Min(end, INT_TOP) * word) + Range(-INT_TOP * word, (end - 2 * INT_TOP) * word)
  }

  /** The pages one call takes from the log: the block itself, rounded up to
      whole words if the block starts on a word boundary. */
  function Covered(b: RamBlock, word: int): set<int>
    requires word > 0
  {
    if WordAligned(b, word) then WordsReached(WordOf(b.base, word), WordCount(b.pages, word), word)
    else Range(b.base, b.End())
  }

  /** The bits it sets for pages it has taken: page by page, the number of the
      bit is an int. */
  function Put(b: RamBlock, word: int, taken: set<int>): set<int>
    requires word > 0
  {
    if WordAligned(b, word) then taken else set p | p in taken :: Int32(p)
  }

  /** Taking a set of pages from the log and setting some bits. */
  function MovedTo(m: Marks, covered: set<int>, put: set<int>): Marks {
    Marks(m.bits + put, m.log - covered, m.count + |put - m.bits|)
  }

  /** Moving a set of pages from the log to the bitmap. */
  function Moved(m: Marks, covered: set<int>): Marks {
    MovedTo(m, covered, m.log * covered)
  }

  function SyncRange(m: Marks, b: RamBlock, word: int): Marks
    requires word > 0
  {
    var covered := Covered(b, word);
    MovedTo(m, covered, Put(b, word, m.log * covered))
  }

  /** migration_bitmap_sync over all blocks */
  function Sync(m: Marks, blocks: seq<RamBlock>, word: int): Marks
    requires word > 0
    decreases |blocks|
  {
    if blocks == [] then m else Sync(SyncRange(m, blocks[0], word), blocks[1..], word)
  }

  function CoveredAll(blocks: seq<RamBlock>, word: int): set<int>
    requires word > 0
  {
    if blocks == [] then {} else Covered(blocks[0], word) + CoveredAll(blocks[1..], word)
  }

  /** The bits a sync sets, given the log. */
  function Landing(blocks: seq<RamBlock>, word: int, log: set<int>): set<int>
    requires word > 0
    decreases |blocks|
  {
    if blocks == [] then {}
    else
      var covered := Covered(blocks[0], word);
      Put(blocks[0], word, log * covered) + Landing(blocks[1..], word, log - covered)
  }

  lemma MovedToTwice(m: Marks, a: set<int>, b: set<int>, x: set<int>, y: set<int>)
    ensures MovedTo(MovedTo(m, a, x), b, y) == MovedTo(m, a + b, x + y)
  {
    var m1 := MovedTo(m, a, x);
    assert m1.bits + y == m.bits + (x + y);
    assert m1.log - b == m.log - (a + b);
    var u, v := x - m.bits, y - m1.bits;
    assert (x + y) - m.bits == u + v;
    assert u !! v;
  }

  lemma MovedTwice(m: Marks, a: set<int>, b: set<int>)
    ensures Moved(Moved(m, a), b) == Moved(m, a + b)
  {
    var m1 := Moved(m, a);
    MovedToTwice(m, a, b, m.log * a, m1.log * b);
    assert m.log * a + m1.log * b == m.log * (a + b);
  }

  /** A sync as one step, whatever the widths do. */
  lemma {:induction false} SyncLands(m: Marks, blocks: seq<RamBlock>, word: int)
    requires word > 0
    ensures Sync(m, blocks, word) == MovedTo(m, CoveredAll(blocks, word), Landing(blocks, word, m.log))
    decreases |blocks|
  {
    hide Covered, Put;
    if blocks == [] {
      assert m.bits + {} == m.bits && m.log - {} == m.log && {} - m.bits == {};
    } else {
      var covered := Covered(blocks[0], word);
      var m1 := SyncRange(m, blocks[0], word);
      SyncLands(m1, blocks[1..], word);
      MovedToTwice(m, covered, CoveredAll(blocks[1..], word), Put(blocks[0], word, m.log * covered), Landing(blocks[1..], word, m1.log));
    }
  }

  // ---- pages that end up at their own bit

  /** A sync takes page p from the log and sets its own bit: the first block of
      the list whose sync covers p starts on a word boundary, or the number of
      p fits an int. */
  predicate Home(blocks: seq<RamBlock>, word: int, p: int)
    requires word > 0
    decreases |blocks|
  {
    blocks != [] &&
    if p in Covered(blocks[0], word) then WordAligned(blocks[0], word) || p < INT_TOP else Home(blocks[1..], word, p)
  }

  predicate Homed(blocks: seq<RamBlock>, word: int)
    requires word > 0
  {
    forall p | p in RamPages(blocks) :: Home(blocks, word, p)
  }

  /** What makes it so in practice: word numbers fit an int, and page numbers
      do in a block that does not start on a word boundary. */
  predicate Indexable(b: RamBlock, word: int)
    requires word > 0
  {
    if WordAligned(b, word) then b.base + RoundUp(b.pages, word) <= INT_TOP * word else b.End() <= INT_TOP
  }

  lemma LoopCoversBlock(page: nat, nr: nat)
    requires nr > 0 && page + nr <= INT_TOP
    ensures Int32(page) == page && LoopEnd(page, nr) == page + nr
  {
    if nr == INT_TOP {
      assert Int32(INT_TOP) == -INT_TOP;
    }
  }

  lemma IndexableCovers(b: RamBlock, word: int)
    requires word > 0 && Indexable(b, word) && WordAligned(b, word) && b.pages > 0
    ensures Covered(b, word) == Range(b.base, b.base + RoundUp(b.pages, word))
  {
    var page, nr := WordOf(b.base, word), WordCount(b.pages, word);
    assert (page + nr) * word == b.base + RoundUp(b.pages, word) by {
      assert (page + nr) * word == page * word + nr * word;
    }
    Rounding(b.pages, word);
    FitsProduct(0, nr - 1, word);
    FitsProduct(page + nr, INT_TOP, word);
    LoopCoversBlock(page, nr);
    BlockWords(b.base, page, nr, word);
  }

  lemma BlockWords(base: int, page: nat, nr: nat, word: int)
    requires word > 0 && page * word == base && Int32(page) == page && LoopEnd(page, nr) == page + nr <= INT_TOP
    ensures WordsReached(page, nr, word) == Range(base, (page + nr) * word)
  {
    hide LoopEnd, Int32;
    var low, high := -INT_TOP * word, (page + nr - 2 * INT_TOP) * word;
    assert high <= low by {
      assert low - high == (INT_TOP - page - nr) * word;
    }
    assert Range(low, high) == {};
  }

  lemma FitsProduct(a: int, b: int, w: int)
    requires w > 0 && a * w < (b + 1) * w
    ensures a <= b
  {
    assert a > b ==> (a - b - 1) * w >= 0;
  }

  lemma {:induction false} IndexableHomed(blocks: seq<RamBlock>, word: int)
    requires word > 0 && Layout(blocks) && forall i | 0 <= i < |blocks| :: Indexable(blocks[i], word)
    ensures Homed(blocks, word)
  {
    hide RamPages, Home;
    forall p | p in RamPages(blocks)
      ensures Home(blocks, word, p)
    {
      IndexableHome(blocks, word, p);
    }
  }

  lemma {:induction false} IndexableHome(blocks: seq<RamBlock>, word: int, p: int)
    requires word > 0 && InRam(blocks, p) && forall i | 0 <= i < |blocks| :: blocks[i].pages > 0 && Indexable(blocks[i], word)
    ensures Home(blocks, word, p)
    decreases |blocks|
  {
    hide WordsReached, Range;
    var b := blocks[0];
    InRamSplit(blocks, p);
    if WordAligned(b, word) {
      IndexableCovers(b, word);
    }
    Rounding(b.pages, word);
    if p !in Covered(b, word) {
      IndexableHome(blocks[1..], word, p);
    }
  }

  lemma {:induction false} HomeIsCovered(blocks: seq<RamBlock>, word: int, p: int)
    requires word > 0 && Home(blocks, word, p)
    ensures p in CoveredAll(blocks, word)
    decreases |blocks|
  {
    hide Covered;
    if p !in Covered(blocks[0], word) {
      HomeIsCovered(blocks[1..], word, p);
    }
  }

  /** What lies in no block is covered by whole words only. */
  lemma {:induction false} OutsideIsHome(blocks: seq<RamBlock>, word: int, p: int)
    requires word > 0 && p in CoveredAll(blocks, word) && !InRam(blocks, p)
    ensures Home(blocks, word, p)
    decreases |blocks|
  {
    hide WordsReached;
    InRamSplit(blocks, p);
    if p !in Covered(blocks[0], word) {
      OutsideIsHome(blocks[1..], word, p);
    }
  }

  lemma PutHome(b: RamBlock, word: int, taken: set<int>)
    requires word > 0 && taken <= Covered(b, word)
    requires WordAligned(b, word) || forall p | p in taken :: p < INT_TOP
    ensures Put(b, word, taken) == taken
  {
    hide WordsReached, Int32;
  }

  lemma {:induction false} LandingHome(blocks: seq<RamBlock>, word: int, log: set<int>)
    requires word > 0 && forall p | p in log && p in CoveredAll(blocks, word) :: Home(blocks, word, p)
    ensures Landing(blocks, word, log) == log * CoveredAll(blocks, word)
    decreases |blocks|
  {
    hide Covered, Put, WordAligned;
    if blocks != [] {
      var covered := Covered(blocks[0], word);
      forall p | p in log * covered
        ensures WordAligned(blocks[0], word) || p < INT_TOP
      {
        assert Home(blocks, word, p);
      }
      PutHome(blocks[0], word, log * covered);
      forall p | p in log - covered && p in CoveredAll(blocks[1..], word)
        ensures Home(blocks[1..], word, p)
      {
        assert Home(blocks, word, p);
      }
      LandingHome(blocks[1..], word, log - covered);
    }
  }

  /** Where every page is at home, syncing block after block moves, once each,
      all pages covered. */
  lemma SyncMoves(m: Marks, blocks: seq<RamBlock>, word: int)
    requires word > 0 && Homed(blocks, word)
    ensures Sync(m, blocks, word) == Moved(m, CoveredAll(blocks, word))
  {
    hide Sync, CoveredAll, Landing, Home, RamPages, InRam;
    forall p | p in m.log && p in CoveredAll(blocks, word)
      ensures Home(blocks, word, p)
    {
      if p !in RamPages(blocks) {
        OutsideIsHome(blocks, word, p);
      }
    }
    SyncLands(m, blocks, word);
    LandingHome(blocks, word, m.log);
  }

  lemma CoversRam(blocks: seq<RamBlock>, word: int)
    requires word > 0 && Homed(blocks, word)
    ensures RamPages(blocks) <= CoveredAll(blocks, word)
  {
    hide CoveredAll, Home, RamPages;
    forall p | p in RamPages(blocks)
      ensures p in CoveredAll(blocks, word)
    {
      HomeIsCovered(blocks, word, p);
    }
  }

  /** Every gap below the end of RAM is marked; setup marks all bits and only
      pages inside blocks are ever unmarked. */
  predicate GapsMarked(blocks: seq<RamBlock>, bits: set<int>) {
    forall p | 0 <= p < LastPage(blocks) && p !in RamPages(blocks) :: p in bits
  }

  /** Bits beyond the end of RAM. */
  function Beyond(blocks: seq<RamBlock>, bits: set<int>): set<int> {
    set p | p in bits && p >= LastPage(blocks)
  }

  /** What migration_dirty_pages counts: marked pages of RAM, and marks beyond
      its end, which nothing ever takes away again. */
  function Tally(blocks: seq<RamBlock>, bits: set<int>): set<int> {
    bits * RamPages(blocks) + Beyond(blocks, bits)
  }

  /** Log bits in the last words of the blocks that lie beyond the end of RAM. */
  function Stray(blocks: seq<RamBlock>, m: Marks, word: int): set<int>
    requires word > 0
  {
    set p | p in m.log && p in CoveredAll(blocks, word) && p >= LastPage(blocks)
  }

  /** Syncing has the effect of moving exactly the log bits of RAM pages, page
      by page: on the bitmap below the end of RAM, on the log inside RAM, and
      on the counter - for the counter if and only if no unmarked stray log
      bit lies beyond the end of RAM in a block's last word. */
  lemma SyncIsPageByPage(blocks: seq<RamBlock>, m: Marks, word: int)
    requires word > 0 && Homed(blocks, word) && GapsMarked(blocks, m.bits) && Counted(blocks, m)
    requires forall p | p in m.log :: 0 <= p
    ensures var w := Sync(m, blocks, word);
      var p := Moved(m, RamPages(blocks));
      w.bits == p.bits + Stray(blocks, m, word) &&
      w.log * RamPages(blocks) == {} == p.log * RamPages(blocks) &&
      (w.count == p.count <==> Stray(blocks, m, word) <= m.bits) &&
      Counted(blocks, p) &&
      (Counted(blocks, w) <==> Stray(blocks, m, word) <= m.bits)
  {
    hide RamPages, CoveredAll, LastPage, InRam, Sync, Homed;
    SyncMoves(m, blocks, word);
    CoversRam(blocks, word);
    RamBelowEnd(blocks);
    MovedBeyond(m, RamPages(blocks), CoveredAll(blocks, word), Stray(blocks, m, word));
  }

  lemma RamBelowEnd(blocks: seq<RamBlock>)
    ensures forall p | p in RamPages(blocks) :: p < LastPage(blocks)
  {
  }

  /** Moving more than the RAM pages: what else comes along is marked already
      or stray. */
  lemma MovedBeyond(m: Marks, ram: set<int>, all: set<int>, stray: set<int>)
    requires ram <= all && stray <= m.log * all && stray !! ram
    requires forall q | q in m.log && q in all :: q in ram || q in m.bits || q in stray
    requires m.count == |m.bits * ram|
    ensures var w := Moved(m, all);
      var p := Moved(m, ram);
      w.bits == p.bits + stray && w.log * ram == {} == p.log * ram &&
      (w.count == p.count <==> stray <= m.bits) &&
      p.count == |p.bits * ram| && (w.count == |w.bits * ram| <==> stray <= m.bits)
  {
    var w, p := Moved(m, all), Moved(m, ram);
    var inRam, out := m.log * ram - m.bits, stray - m.bits;
    forall q
      ensures q in m.log * all - m.bits <==> q in inRam + out
    {
    }
    assert m.log * all - m.bits == inRam + out;
    assert w.count == m.count + |inRam| + |out|;
    assert p.bits * ram == m.bits * ram + inRam;
    assert |p.bits * ram| == |m.bits * ram| + |inRam|;
    forall q
      ensures q in w.bits <==> q in p.bits + stray
    {
    }
    assert w.bits * ram == p.bits * ram;
    if out == {} {
      assert stray <= m.bits by {
        forall q | q in stray
          ensures q in m.bits
        {
          assert q !in out;
        }
      }
    } else {
      assert |out| > 0;
      assert stray <= m.bits ==> out == {};
    }
  }

  /** One block of one page, a word of 64 bits, and a log bit of no page: the
      counter is right before the sync and wrong after it. */
  lemma StrayBitMiscounts()
    ensures var blocks := [RamBlock("pc.ram", 0, 1)];
      var m := Marks({0}, {5}, 1);
      Counted(blocks, m) && Stray(blocks, m, 64) == {5} &&
      !Counted(blocks, Sync(m, blocks, 64)) && Sync(m, blocks, 64).count == 2
  {
    hide Sync, CoveredAll, RamPages, LastPage, Range, Homed;
    var blocks := [RamBlock("pc.ram", 0, 1)];
    var m := Marks({0}, {5}, 1);
    OnePage(blocks[0]);
    SyncMoves(m, blocks, 64);
    assert m.log * CoveredAll(blocks, 64) == {5};
    assert {5} - m.bits == {5};
    assert (m.bits + {5}) * {0} == {0};
  }

  lemma OnePage(b: RamBlock)
    requires b.base == 0 && b.pages == 1
    ensures LastPage([b]) == 1 && RamPages([b]) == {0} && 5 in CoveredAll([b], 64) && Homed([b], 64)
  {
    hide Range, Covered, Homed, RoundUp, Indexable;
    OneWord(b);
    IndexableHomed([b], 64);
    var blocks := [b];
    assert blocks[1..] == [];
    assert Range(0, 1) == {0};
  }

  lemma OneWord(b: RamBlock)
    requires b.base == 0 && 0 < b.pages <= 64
    ensures Indexable(b, 64) && WordAligned(b, 64) && forall p | 0 <= p < 64 :: p in Covered(b, 64)
  {
    assert RoundUp(b.pages, 64) == 64;
    hide Range, Covered, RoundUp;
    IndexableCovers(b, 64);
  }

  // ---- the counter, whatever the log holds

  lemma TallySize(blocks: seq<RamBlock>, bits: set<int>)
    ensures |Tally(blocks, bits)| == |bits * RamPages(blocks)| + |Beyond(blocks, bits)|
  {
    RamBelowEnd(blocks);
    hide RamPages, LastPage;
    assert bits * RamPages(blocks) !! Beyond(blocks, bits);
  }

  /** The counter is the number of marked pages in RAM exactly when no bit
      beyond the end of RAM is marked. */
  lemma TallyIsRamIff(blocks: seq<RamBlock>, bits: set<int>)
    ensures |Tally(blocks, bits)| == |bits * RamPages(blocks)| <==> Beyond(blocks, bits) == {}
  {
    TallySize(blocks, bits);
  }

  lemma TallyUnmarked(blocks: seq<RamBlock>, bits: set<int>, p: int)
    requires p in bits && p in RamPages(blocks)
    ensures Tally(blocks, bits - {p}) == Tally(blocks, bits) - {p} && |Tally(blocks, bits - {p})| == |Tally(blocks, bits)| - 1
    ensures Beyond(blocks, bits - {p}) == Beyond(blocks, bits)
  {
    RamBelowEnd(blocks);
    hide RamPages, LastPage;
    assert Tally(blocks, bits - {p}) == Tally(blocks, bits) - {p};
  }

  /** New marks, in RAM or beyond its end, are all tallied. */
  lemma GainTallied(blocks: seq<RamBlock>, bits: set<int>, gain: set<int>)
    requires gain !! bits && forall p | p in gain :: p in RamPages(blocks) || p >= LastPage(blocks)
    ensures |Tally(blocks, bits + gain)| == |Tally(blocks, bits)| + |gain|
  {
    hide RamPages, LastPage;
    assert Tally(blocks, bits + gain) == Tally(blocks, bits) + gain;
    assert Tally(blocks, bits) !! gain;
  }

  /** Every log bit a sync moves is marked already, in RAM, or stray. */
  lemma GainPlaced(blocks: seq<RamBlock>, m: Marks, all: set<int>)
    requires GapsMarked(blocks, m.bits) && forall p | p in m.log :: 0 <= p
    ensures forall p | p in m.log * all - m.bits :: p in RamPages(blocks) || p >= LastPage(blocks)
  {
    hide RamPages, LastPage;
  }

  /** Syncing keeps the counter a tally, marks what the log says of RAM pages,
      and marks exactly the stray bits beyond the end of RAM. */
  lemma SyncTallies(blocks: seq<RamBlock>, m: Marks, word: int)
    requires word > 0 && Homed(blocks, word) && GapsMarked(blocks, m.bits) && m.count == |Tally(blocks, m.bits)|
    requires forall p | p in m.log :: 0 <= p
    ensures var w := Sync(m, blocks, word);
      && GapsMarked(blocks, w.bits) && w.count == |Tally(blocks, w.bits)|
      && w.bits * RamPages(blocks) == (m.bits + m.log) * RamPages(blocks) && m.bits <= w.bits
      && w.log <= m.log && w.log * RamPages(blocks) == {}
      && Beyond(blocks, w.bits) == Beyond(blocks, m.bits) + Stray(blocks, m, word) && Stray(blocks, w, word) == {}
  {
    hide RamPages, CoveredAll, LastPage, Sync, Tally, Homed;
    SyncMoves(m, blocks, word);
    CoversRam(blocks, word);
    var all := CoveredAll(blocks, word);
    var gain := m.log * all - m.bits;
    GainPlaced(blocks, m, all);
    GainTallied(blocks, m.bits, gain);
    assert m.bits + m.log * all == m.bits + gain;
  }
}
