/** What the int in the page-at-a-time branch of the sync does to page numbers
    that do not fit it: exactly which log bits are lost, for which layouts of
    RAM none is, and what that means for a migration. */
module SyncWidth {
  import opened Common
  import opened MigrationBitmap
  import opened Precopy
  import opened PrecopySafety

  /** The log bit of page p is taken and another bit set: the first block whose
      sync covers p does not start on a word boundary, and p does not fit an
      int. */
  predicate Misplaced(blocks: seq<RamBlock>, word: int, p: int)
    requires word > 0
    decreases |blocks|
  {
    blocks != [] &&
    if p in Covered(blocks[0], word) then !WordAligned(blocks[0], word) && p >= INT_TOP else Misplaced(blocks[1..], word, p)
  }

  lemma {:induction false} CoveredSomehow(blocks: seq<RamBlock>, word: int, p: int)
    requires word > 0
    ensures p in CoveredAll(blocks, word) <==> Home(blocks, word, p) || Misplaced(blocks, word, p)
    ensures !(Home(blocks, word, p) && Misplaced(blocks, word, p))
    ensures Misplaced(blocks, word, p) ==> p >= INT_TOP
    decreases |blocks|
  {
    hide Covered, WordAligned;
    if blocks != [] {
      CoveredSomehow(blocks[1..], word, p);
    }
  }

  lemma PutFar(b: RamBlock, word: int, taken: set<int>, q: int)
    requires word > 0 && taken <= Covered(b, word) && q >= INT_TOP
    ensures q in Put(b, word, taken) <==> q in taken && WordAligned(b, word)
  {
  }

  /** A bit that does not fit an int is set exactly for its own page, at home. */
  lemma {:induction false} LandsFar(blocks: seq<RamBlock>, word: int, log: set<int>, q: int)
    requires word > 0 && q >= INT_TOP
    ensures q in Landing(blocks, word, log) <==> q in log && Home(blocks, word, q)
    decreases |blocks|
  {
    hide Covered, Put, WordAligned;
    if blocks != [] {
      var covered := Covered(blocks[0], word);
      PutFar(blocks[0], word, log * covered, q);
      LandsFar(blocks[1..], word, log - covered, q);
    }
  }

  /** A page at home lands at home. */
  lemma {:induction false} LandsHome(blocks: seq<RamBlock>, word: int, log: set<int>, p: int)
    requires word > 0 && p in log && Home(blocks, word, p)
    ensures p in Landing(blocks, word, log)
    decreases |blocks|
  {
    hide Covered, WordAligned;
    var covered := Covered(blocks[0], word);
    if p in covered {
      PutNear(blocks[0], word, log * covered, p);
    } else {
      LandsHome(blocks[1..], word, log - covered, p);
    }
  }

  lemma PutNear(b: RamBlock, word: int, taken: set<int>, p: int)
    requires word > 0 && taken <= Covered(b, word) && p in taken && (WordAligned(b, word) || p < INT_TOP)
    ensures p in Put(b, word, taken)
  {
    hide WordsReached;
    assert !WordAligned(b, word) ==> Int32(p) == p;
  }

  /** Where page p of the log is after a sync. */
  lemma AfterSync(m: Marks, blocks: seq<RamBlock>, word: int, p: int)
    requires word > 0 && p in m.log && p !in m.bits
    ensures var w := Sync(m, blocks, word);
      (p in w.log <==> p !in CoveredAll(blocks, word)) &&
      (p in w.bits || p in w.log <==> !Misplaced(blocks, word, p)) &&
      (Home(blocks, word, p) ==> p in w.bits)
  {
    hide Sync, CoveredAll, Landing, Home, Misplaced;
    SyncLands(m, blocks, word);
    CoveredSomehow(blocks, word, p);
    if Home(blocks, word, p) {
      LandsHome(blocks, word, m.log, p);
    }
    if p >= INT_TOP {
      LandsFar(blocks, word, m.log, p);
    }
  }

  /** A sync loses no page of the log, if and only if no page that is not
      marked already lies above the range of an int in a block that does not
      start on a word boundary and that no whole word covers before. */
  lemma SyncLosesNothingIff(m: Marks, blocks: seq<RamBlock>, word: int)
    requires word > 0
    ensures var w := Sync(m, blocks, word);
      m.log + m.bits <= w.bits + w.log <==> forall p | p in m.log && p !in m.bits :: !Misplaced(blocks, word, p)
  {
    hide Sync, CoveredAll, Landing, Home, Misplaced;
    var w := Sync(m, blocks, word);
    SyncLands(m, blocks, word);
    forall p | p in m.log && p !in m.bits
      ensures p in w.bits + w.log <==> !Misplaced(blocks, word, p)
    {
      AfterSync(m, blocks, word, p);
    }
    if m.log + m.bits <= w.bits + w.log {
      forall p | p in m.log && p !in m.bits
        ensures !Misplaced(blocks, word, p)
      {
        assert p in m.log + m.bits;
      }
    }
    if forall p | p in m.log && p !in m.bits :: !Misplaced(blocks, word, p) {
      assert forall p | p in m.log + m.bits :: p in w.bits + w.log;
    }
  }

  /** After the sync the bitmap says of RAM what bitmap and log said before,
      and the log says nothing. */
  ghost predicate Exact(m: Marks, blocks: seq<RamBlock>, word: int)
    requires word > 0
  {
    var w := Sync(m, blocks, word);
    w.bits * RamPages(blocks) == (m.bits + m.log) * RamPages(blocks) && w.log * RamPages(blocks) == {}
  }

  lemma HomedIsExact(m: Marks, blocks: seq<RamBlock>, word: int)
    requires word > 0 && Homed(blocks, word)
    ensures Exact(m, blocks, word)
  {
    hide Sync, CoveredAll, RamPages, Homed;
    SyncMoves(m, blocks, word);
    CoversRam(blocks, word);
  }

  /** The layouts for which every sync is exact: all pages are at home. */
  lemma SyncExactIff(blocks: seq<RamBlock>, word: int)
    requires word > 0
    ensures Homed(blocks, word) <==> forall m :: Exact(m, blocks, word)
  {
    hide Exact, RamPages, Home;
    if Homed(blocks, word) {
      forall m
        ensures Exact(m, blocks, word)
      {
        HomedIsExact(m, blocks, word);
      }
    } else {
      var p :| p in RamPages(blocks) && !Home(blocks, word, p);
      AwayIsInexact(blocks, word, p);
    }
  }

  lemma AwayIsInexact(blocks: seq<RamBlock>, word: int, p: int)
    requires word > 0 && p in RamPages(blocks) && !Home(blocks, word, p)
    ensures !Exact(Marks({}, {p}, 0), blocks, word)
  {
    hide RamPages, Home, Sync, CoveredAll, Misplaced;
    var m := Marks({}, {p}, 0);
    AfterSync(m, blocks, word, p);
    CoveredSomehow(blocks, word, p);
    var w := Sync(m, blocks, word);
    assert p in (m.bits + m.log) * RamPages(blocks);
    assert p in w.log ==> p in w.log * RamPages(blocks);
  }

  /** A page behind eight tebibytes of RAM, in a block of its own that does not
      start on a word boundary: its log bit is gone after the sync, and the bit
      that was set is not in the bitmap at all. */
  lemma FarPageIsLost()
    ensures var p := 0x8000_0001;
      var blocks := [RamBlock("vga.vram", p, 1)];
      var w := Sync(Marks({}, {p}, 0), blocks, 64);
      Misplaced(blocks, 64, p) && w == Marks({-0x7fff_ffff}, {}, 1)
  {
    hide Sync, Range;
    var p := 0x8000_0001;
    var blocks := [RamBlock("vga.vram", p, 1)];
    var m := Marks({}, {p}, 0);
    assert blocks[1..] == [];
    assert !WordAligned(blocks[0], 64);
    assert Covered(blocks[0], 64) == {p};
    assert Int32(p) == -0x7fff_ffff;
    SyncLands(m, blocks, 64);
    assert CoveredAll(blocks, 64) == {p};
    assert m.log * {p} == {p};
    assert Put(blocks[0], 64, {p}) == {Int32(p)};
    assert Landing(blocks, 64, m.log) == {-0x7fff_ffff};
    assert {-0x7fff_ffff} - m.bits == {-0x7fff_ffff};
  }

  /** In a migration: a page the guest has written, at rest otherwise and
      misplaced, is not safe any more once the bitmap is synced. */
  lemma MisplacedIsUnsafe(cfg: Config, s: State, p: int)
    requires cfg.word > 0 && p in s.log && p !in s.bitmap && p !in s.pending
    requires p in s.src && p in s.dst && s.dst[p] != s.src[p]
    ensures SafePage(s, p)
    ensures SafePage(Synced(cfg, s), p) <==> !Misplaced(cfg.blocks, cfg.word, p)
  {
    hide Sync, Misplaced;
    AfterSync(Marks(s.bitmap, s.log, s.count), cfg.blocks, cfg.word, p);
  }
}
