/** The migration bitmap and the dirty log as arrays of bits, synced a machine
    word at a time where a block starts on a word boundary and a page at a
    time elsewhere.  A word is a run of consecutive bits of its array. */
module BitmapWords {
  import opened Common
  import opened MigrationBitmap

  type Word = seq<bool>

  /** The positions of the set bits. */
  function Bits(s: seq<bool>): set<int> { set p | 0 <= p < |s| && s[p] }

  function Or(a: Word, b: Word): (r: Word)
    requires |a| == |b|
    ensures |r| == |a|
  {
    seq(|a|, i requires 0 <= i < |a| => a[i] || b[i])
  }

  function AndNot(a: Word, b: Word): Word
    requires |a| == |b|
  {
    seq(|a|, i requires 0 <= i < |a| => a[i] && !b[i])
  }

  function NoBits(w: nat): (r: Word)
    ensures |r| == w
  {
    seq(w, _ => false)
  }

  /** ctpopl */
  function PopCount(a: Word): int {
    if a == [] then 0 else PopCount(a[..|a| - 1]) + if a[|a| - 1] then 1 else 0
  }

  /** Bits base.. of s replaced by a word. */
  function Stored(s: seq<bool>, base: int, a: Word): seq<bool>
    requires 0 <= base && base + |a| <= |s|
  {
    s[..base] + a + s[base + |a|..]
  }

  /** The set bits among lo..hi, counted as a population count counts them. */
  ghost function BitsIn(s: seq<bool>, lo: nat, hi: nat): (r: set<int>)
    requires lo <= hi <= |s|
    ensures forall p :: p in r <==> lo <= p < hi && s[p]
    ensures |r| == PopCount(s[lo..hi])
    decreases hi
  {
    if lo == hi then {}
    else
      assert s[lo..hi][..hi - lo - 1] == s[lo..hi - 1];
      if s[hi - 1] then BitsIn(s, lo, hi - 1) + {hi - 1} else BitsIn(s, lo, hi - 1)
  }

  lemma StoredAt(s: seq<bool>, base: nat, a: Word)
    requires base + |a| <= |s|
    ensures var r := Stored(s, base, a);
      |r| == |s| && forall p | 0 <= p < |s| :: r[p] == if base <= p < base + |a| then a[p - base] else s[p]
  {
  }

  lemma BitsOr(b: seq<bool>, l: seq<bool>, base: nat, w: nat)
    requires |b| == |l| && base + w <= |b|
    ensures Bits(Stored(b, base, Or(b[base..base + w], l[base..base + w]))) == Bits(b) + Bits(l) * Range(base, base + w)
  {
    var bw, lw := b[base..base + w], l[base..base + w];
    var a := Or(bw, lw);
    assert forall i | 0 <= i < w :: a[i] == (b[base + i] || l[base + i]) by {
      assert forall i | 0 <= i < w :: bw[i] == b[base + i] && lw[i] == l[base + i];
    }
    var r := Stored(b, base, a);
    StoredAt(b, base, a);
    assert forall p | 0 <= p < |b| :: r[p] == (b[p] || (l[p] && base <= p < base + w));
    hide Stored, Or;
  }

  lemma BitsCleared(l: seq<bool>, base: nat, w: nat)
    requires base + w <= |l|
    ensures Bits(Stored(l, base, NoBits(w))) == Bits(l) - Range(base, base + w)
  {
    var r := Stored(l, base, NoBits(w));
    assert forall p | 0 <= p < |l| :: r[p] == (l[p] && !(base <= p < base + w));
    hide Stored, NoBits;
  }

  lemma BitsGained(b: seq<bool>, l: seq<bool>, base: nat, w: nat)
    requires |b| == |l| && base + w <= |b|
    ensures PopCount(AndNot(l[base..base + w], b[base..base + w])) == |Bits(l) * Range(base, base + w) - Bits(b)|
  {
    var gain := AndNot(l, b);
    assert AndNot(l[base..base + w], b[base..base + w]) == gain[base..base + w];
    var counted := BitsIn(gain, base, base + w);
    assert forall p | 0 <= p < |b| :: gain[p] == (l[p] && !b[p]);
    hide AndNot, PopCount;
    assert counted == Bits(l) * Range(base, base + w) - Bits(b);
  }

  /** Folding one word of the log into the bitmap moves its pages. */
  lemma WordMoved(b: seq<bool>, l: seq<bool>, base: nat, w: nat, n: int)
    requires |b| == |l| && base + w <= |b|
    ensures
      var bw, lw := b[base..base + w], l[base..base + w];
      Marks(Bits(Stored(b, base, Or(bw, lw))), Bits(Stored(l, base, NoBits(w))), n + PopCount(AndNot(lw, bw))) ==
      Moved(Marks(Bits(b), Bits(l), n), Range(base, base + w))
  {
    hide Bits, Range, Stored, Or, AndNot, PopCount, NoBits;
    BitsOr(b, l, base, w);
    BitsCleared(l, base, w);
    BitsGained(b, l, base, w);
  }

  lemma NothingToMove(m: Marks, covered: set<int>)
    requires m.log !! covered
    ensures Moved(m, covered) == m
  {
    var now := m.log * covered;
    assert now == {};
    assert now - m.bits == {};
  }

  lemma EmptyMove(m: Marks, a: int)
    ensures Moved(m, Range(a, a)) == m
  {
    NothingToMove(m, Range(a, a));
  }

  lemma ZeroWord(l: seq<bool>, base: nat, w: nat)
    requires base + w <= |l| && l[base..base + w] == NoBits(w)
    ensures Bits(l) !! Range(base, base + w)
  {
    assert forall p | base <= p < base + w :: l[p] == l[base..base + w][p - base];
  }

  /** The test of the loop over words: an int against an unsigned long. */
  predicate LoopTest(k: int, page: nat, nr: nat) {
    (if k >= 0 then k else k + TWO64) < (page + Int32(nr)) % TWO64
  }

  /** The loop runs from the first word number, as an int, to LoopEnd. */
  lemma LoopRuns(page: nat, nr: nat, at: int)
    requires page < TWO64 / 2 && Int32(page) <= at <= LoopEnd(page, nr)
    ensures LoopTest(Int32(at), page, nr) <==> at < LoopEnd(page, nr)
  {
    hide Int32;
    AsInt(at, page, nr);
    var bound := page + Int32(nr);
    assert bound % TWO64 == if bound < 0 then bound + TWO64 else bound;
  }

  lemma AsInt(at: int, page: nat, nr: nat)
    requires Int32(page) <= at <= LoopEnd(page, nr)
    ensures at <= 2 * INT_TOP && Int32(at) == if at < INT_TOP then at else at - 2 * INT_TOP
    ensures page + Int32(nr) < 0 ==> Int32(page) == page
  {
  }

  class DirtyBitmaps {
    const word: nat                  // BITS_PER_LONG
    const bitmap: array<bool>        // migration_bitmap
    const log: array<bool>           // ram_list.dirty_memory[DIRTY_MEMORY_MIGRATION]
    var dirtyPages: int              // migration_dirty_pages

    ghost predicate Valid() {
      word > 0 && bitmap != log && bitmap.Length == log.Length
    }

    ghost function Abs(): Marks
      reads this, bitmap, log
    {
      Marks(Bits(bitmap[..]), Bits(log[..]), dirtyPages)
    }

    constructor (word: nat, pages: nat)
      requires word > 0
      ensures Valid() && this.word == word && bitmap.Length == pages && fresh(bitmap) && fresh(log)
      ensures Abs() == Marks({}, {}, 0)
    {
      this.word := word;
      bitmap := new bool[pages](_ => false);
      log := new bool[pages](_ => false);
      dirtyPages := 0;
      new;
      assert Bits(bitmap[..]) == {} == Bits(log[..]);
    }

    /** Both arrays reach to the end of what a sync of the block touches. */
    ghost predicate Fits(b: RamBlock)
      requires Valid()
    {
      if WordAligned(b, word) then FitWords(WordOf(b.base, word), WordCount(b.pages, word))
      else b.End() <= log.Length && forall p | b.base <= p < b.End() :: 0 <= Int32(p) < bitmap.Length
    }

    ghost predicate FitWords(page: nat, nr: nat)
      requires Valid()
    {
      var k, end := Int32(page), LoopEnd(page, nr);
      page < TWO64 / 2 && (k < end ==> 0 <= k && end <= INT_TOP && end * word <= log.Length)
    }

    method StoreWord(a: array<bool>, base: nat, w: Word)
      requires base + |w| <= a.Length
      modifies a
      ensures a[..] == Stored(old(a[..]), base, w)
    {
      forall i | 0 <= i < |w| {
        a[base + i] := w[i];
      }
    }

    /** One word: what the log adds is counted by population count. */
    method SyncWord(base: nat)
      requires Valid() && base + word <= log.Length
      modifies this`dirtyPages, bitmap, log
      ensures Abs() == Moved(old(Abs()), Range(base, base + word))
    {
      hide Bits, Range, Moved, Stored, Or, AndNot, PopCount, NoBits;
      ghost var b, l := bitmap[..], log[..];
      var src := log[base..base + word];
      if src != NoBits(word) {
        var dst := bitmap[base..base + word];
        WordMoved(b, l, base, word, dirtyPages);
        StoreWord(bitmap, base, Or(dst, src));
        dirtyPages := dirtyPages + PopCount(AndNot(src, dst));
        StoreWord(log, base, NoBits(word));
      } else {
        ZeroWord(l, base, word);
        NothingToMove(Abs(), Range(base, base + word));
      }
    }

    /** One page: test the log, reset it, and set a bit
        (migration_bitmap_set_dirty, whose bit number is an int). */
    method SyncPage(p: nat)
      requires Valid() && p < log.Length && 0 <= Int32(p) < bitmap.Length
      modifies this`dirtyPages, bitmap, log
      ensures Abs() == Truncated(old(Abs()), Range(p, p + 1))
    {
      ghost var m := Abs();
      assert Range(p, p + 1) == {p};
      hide Range;
      if log[p] {
        log[p] := false;
        var nr := Int32(p);
        hide Int32;
        if !bitmap[nr] {
          bitmap[nr] := true;
          dirtyPages := dirtyPages + 1;
        }
        assert Bits(log[..]) == m.log - {p};
        assert m.log * {p} == {p};
        assert Ints({p}) == {nr};
        assert Bits(bitmap[..]) == m.bits + {nr};
        assert {nr} - m.bits == if nr in m.bits then {} else {nr};
      } else {
        assert m.log * {p} == {};
        NothingTruncated(m, {p});
      }
    }

    method SyncWords(page: nat, nr: nat)
      requires Valid() && FitWords(page, nr)
      modifies this`dirtyPages, bitmap, log
      ensures Abs() == Moved(old(Abs()), WordsReached(page, nr, word))
    {
      hide Bits, Range, Moved, LoopEnd, Int32, LoopTest, WordsReached;
      ghost var m := Abs();
      ghost var at, end := Int32(page), LoopEnd(page, nr);
      LoopStarts(page, nr);
      EmptyMove(m, at * word);
      var k := Int32(page);
      LoopRuns(page, nr, at);
      while LoopTest(k, page, nr)
        invariant Int32(page) <= at <= end && k == Int32(at)
        invariant LoopTest(k, page, nr) <==> at < end
        invariant Abs() == Moved(m, Range(Int32(page) * word, at * word))
        decreases end - at
      {
        WordInside(at, end, word, log.Length);
        SyncWord(k * word);
        Extend(m, Int32(page) * word, at * word, at * word + word);
        Wraps(at);
        k, at := Int32(k + 1), at + 1;
        LoopRuns(page, nr, at);
      }
      ReachedIs(page, nr, word);
    }

    method SyncPages(start: nat, pages: nat)
      requires Valid() && start + pages <= log.Length
      requires forall p | start <= p < start + pages :: 0 <= Int32(p) < bitmap.Length
      modifies this`dirtyPages, bitmap, log
      ensures Abs() == Truncated(old(Abs()), Range(start, start + pages))
    {
      hide Bits, Range, Truncated, Int32;
      ghost var m := Abs();
      NothingTruncated(m, Range(start, start));
      for k := 0 to pages
        invariant Abs() == Truncated(m, Range(start, start + k))
      {
        SyncPage(start + k);
        ExtendTruncated(m, start, start + k, start + k + 1);
      }
    }

    /** migration_bitmap_sync_range, in both of its branches */
    method SyncRange(b: RamBlock)
      requires Valid() && Fits(b)
      modifies this`dirtyPages, bitmap, log
      ensures Abs() == MigrationBitmap.SyncRange(old(Abs()), b, word)
    {
      hide Bits, MovedTo, Range, WordsReached, Int32;
      if b.base % word == 0 {
        SyncWords(WordOf(b.base, word), WordCount(b.pages, word));
      } else {
        SyncPages(b.base, b.pages);
      }
    }
  }

  /** Bits set for pages, numbered by an int. */
  function Ints(s: set<int>): set<int> { set p | p in s :: Int32(p) }

  function Truncated(m: Marks, covered: set<int>): Marks { MovedTo(m, covered, Ints(m.log * covered)) }

  lemma NothingTruncated(m: Marks, covered: set<int>)
    requires m.log * covered == {}
    ensures Truncated(m, covered) == m
  {
    assert Ints({}) == {} && m.bits + {} == m.bits && {} - m.bits == {};
    assert forall p | p in m.log && p in covered :: p in m.log * covered;
    assert m.log - covered == m.log;
  }

  lemma ExtendTruncated(m: Marks, a: int, b: int, c: int)
    requires a <= b <= c
    ensures Truncated(Truncated(m, Range(a, b)), Range(b, c)) == Truncated(m, Range(a, c))
  {
    hide Int32;
    var x, y, z := Range(a, b), Range(b, c), Range(a, c);
    assert x + y == z;
    var m1 := Truncated(m, x);
    assert m.log * x + m1.log * y == m.log * z;
    assert Ints(m.log * x) + Ints(m1.log * y) == Ints(m.log * z);
    MovedToTwice(m, x, y, Ints(m.log * x), Ints(m1.log * y));
  }

  lemma LoopStarts(page: nat, nr: nat)
    ensures Int32(page) <= LoopEnd(page, nr)
  {
  }

  lemma WordInside(at: int, end: int, word: nat, length: nat)
    requires 0 <= at < end && end * word <= length && at < INT_TOP
    ensures 0 <= at * word && at * word + word <= length && Int32(at) == at && (at + 1) * word == at * word + word
  {
    assert (end - at - 1) * word >= 0;
  }

  lemma Wraps(at: int)
    requires 0 <= at < INT_TOP
    ensures Int32(Int32(at) + 1) == Int32(at + 1)
  {
  }

  lemma ReachedIs(page: nat, nr: nat, word: nat)
    requires word > 0
    requires Int32(page) < LoopEnd(page, nr) ==> 0 <= Int32(page) && LoopEnd(page, nr) <= INT_TOP
    requires Int32(page) <= LoopEnd(page, nr)
    ensures WordsReached(page, nr, word) == Range(Int32(page) * word, LoopEnd(page, nr) * word)
  {
    hide LoopEnd, Int32;
    var end := LoopEnd(page, nr);
    assert end <= INT_TOP;
    var low, high := -INT_TOP * word, (end - 2 * INT_TOP) * word;
    assert (INT_TOP - end) * word >= 0;
    assert low - high == (INT_TOP - end) * word;
    assert Range(low, high) == {};
  }

  lemma Extend(m: Marks, a: int, b: int, c: int)
    requires a <= b <= c
    ensures Moved(Moved(m, Range(a, b)), Range(b, c)) == Moved(m, Range(a, c))
  {
    MovedTwice(m, Range(a, b), Range(b, c));
    assert Range(a, b) + Range(b, c) == Range(a, c);
  }
}
