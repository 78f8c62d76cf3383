/** The two dump bitmaps, built in a one-page buffer that is flushed to both
    whenever the next page frame falls outside it. */
module KdumpBitmap {
  import opened Common
  import opened Slots
  import opened KdumpFile

  /** Bit i of the bitmap that starts at base. */
  ghost predicate DiskBit(f: File, base: int, i: nat) {
    var c := f(base + i / 8);
    c.Some? && BitOf(c.value, i % 8)
  }

  /** Bits 0..n of both bitmaps are on disk and are those marked. */
  ghost predicate DiskMarks(f: File, base: int, len: nat, n: nat, marked: set<int>) {
    forall i: nat | i < n :: DiskBit(f, base, i) == DiskBit(f, base + len, i) == (i in marked)
  }

  /** The buffer holds the bits from 8 * at on; nothing is marked beyond. */
  ghost predicate BufMarks(buf: seq<Byte>, at: nat, marked: set<int>) {
    && (forall i: nat | i < 8 * |buf| :: BufBit(buf, i) == (8 * at + i in marked))
    && (forall p | p in marked :: 0 <= p < 8 * at + 8 * |buf|)
  }

  ghost predicate Bitmaps(f: File, base: int, len: nat, buf: seq<Byte>, at: nat, marked: set<int>) {
    DiskMarks(f, base, len, 8 * at, marked) && BufMarks(buf, at, marked)
  }

  /** The buffer written to both bitmaps. */
  function Flush(f: File, base: int, len: nat, at: nat, buf: seq<Byte>): File {
    Wrote(Wrote(f, base + at, buf), base + len + at, buf)
  }

  lemma BitOnDisk(f: File, base: int, at: nat, buf: seq<Byte>, i: nat)
    requires Has(f, base + at, buf) && 8 * at <= i < 8 * at + 8 * |buf|
    ensures DiskBit(f, base, i) == BufBit(buf, i - 8 * at)
  {
    var k := i / 8 - at;
    assert (i - 8 * at) / 8 == k && (i - 8 * at) % 8 == i % 8;
    assert f(base + at + k) == Some(buf[k]);
  }

  lemma BitKept(f: File, f': File, lo: int, hi: int, base: int, i: nat)
    requires SameOutside(f, f', lo, hi) && (base + i / 8 < lo || hi <= base + i / 8)
    ensures DiskBit(f', base, i) == DiskBit(f, base, i)
  {
  }

  /** The buffer is on disk in both places, and nothing else changed. */
  lemma FlushWrites(f: File, base: int, len: nat, at: nat, buf: seq<Byte>)
    requires at + |buf| <= len
    ensures var f1, f' := Wrote(f, base + at, buf), Flush(f, base, len, at, buf);
      && Has(f', base + at, buf) && Has(f', base + len + at, buf)
      && SameOutside(f, f1, base + at, base + at + |buf|)
      && SameOutside(f1, f', base + len + at, base + len + at + |buf|)
  {
    var f1 := Wrote(f, base + at, buf);
    WroteHas(f, base + at, buf);
    WroteHas(f1, base + len + at, buf);
    hide Wrote, Has, SameOutside;
    HasKept(f1, Flush(f, base, len, at, buf), base + len + at, base + len + at + |buf|, base + at, buf);
  }

  lemma OldBit(f: File, base: int, len: nat, at: nat, buf: seq<Byte>, i: nat)
    requires at + |buf| <= len && i < 8 * at
    ensures var f' := Flush(f, base, len, at, buf);
      DiskBit(f', base, i) == DiskBit(f, base, i) && DiskBit(f', base + len, i) == DiskBit(f, base + len, i)
  {
    FlushWrites(f, base, len, at, buf);
    var f1, f', n := Wrote(f, base + at, buf), Flush(f, base, len, at, buf), |buf|;
    hide Wrote, Has, SameOutside, Flush, DiskBit;
    BitKept(f, f1, base + at, base + at + n, base, i);
    BitKept(f1, f', base + len + at, base + len + at + n, base, i);
    BitKept(f, f1, base + at, base + at + n, base + len, i);
    BitKept(f1, f', base + len + at, base + len + at + n, base + len, i);
  }

  lemma FlushedBit(f: File, base: int, len: nat, buf: seq<Byte>, at: nat, marked: set<int>, i: nat)
    requires Bitmaps(f, base, len, buf, at, marked) && at + |buf| <= len && i < 8 * (at + |buf|)
    ensures var f' := Flush(f, base, len, at, buf); DiskBit(f', base, i) == DiskBit(f', base + len, i) == (i in marked)
  {
    hide Wrote, Flush, Has, SameOutside, BufBit, DiskBit;
    var f' := Flush(f, base, len, at, buf);
    if i < 8 * at {
      assert DiskBit(f, base, i) == DiskBit(f, base + len, i) == (i in marked);
      OldBit(f, base, len, at, buf, i);
    } else {
      FlushWrites(f, base, len, at, buf);
      BitOnDisk(f', base, at, buf, i);
      BitOnDisk(f', base + len, at, buf, i);
      var k := i - 8 * at;
      assert BufBit(buf, k) == (8 * at + k in marked);
    }
  }

  /** After a flush the next buffer starts empty. */
  lemma FlushedOk(f: File, base: int, len: nat, buf: seq<Byte>, at: nat, marked: set<int>)
    requires Bitmaps(f, base, len, buf, at, marked) && at + |buf| <= len
    ensures Bitmaps(Flush(f, base, len, at, buf), base, len, Zeros(|buf|), at + |buf|, marked)
    ensures SameOutside(f, Flush(f, base, len, at, buf), base, base + 2 * len)
  {
    var n := |buf|;
    var f' := Flush(f, base, len, at, buf);
    FlushWrites(f, base, len, at, buf);
    var f1 := Wrote(f, base + at, buf);
    OutsideWider(f, f1, base + at, base + at + n, base, base + 2 * len);
    OutsideWider(f1, f', base + len + at, base + len + at + n, base, base + 2 * len);
    OutsideOn(f, f1, f', base, base + 2 * len);
    hide Flush, Has, DiskBit, Wrote, SameOutside;
    forall i: nat | i < 8 * (at + n)
      ensures DiskBit(f', base, i) == DiskBit(f', base + len, i) == (i in marked)
    {
      FlushedBit(f, base, len, buf, at, marked, i);
    }
    forall i: nat | i < 8 * n
      ensures BufBit(Zeros(n), i) == (8 * (at + n) + i in marked)
    {
      ZeroBits(n, i);
    }
    hide BufBit, Zeros;
  }

  /** Setting a bit in the buffer marks it; clearing one that is not marked
      changes nothing. */
  lemma StoredOk(buf: seq<Byte>, at: nat, marked: set<int>, i: nat, value: bool)
    requires BufMarks(buf, at, marked) && i < 8 * |buf| && (!value ==> 8 * at + i !in marked)
    ensures BufMarks(StoreBit(buf, i, value), at, if value then marked + {8 * at + i} else marked)
    ensures |StoreBit(buf, i, value)| == |buf|
  {
    var buf' := StoreBit(buf, i, value);
    var marked' := if value then marked + {8 * at + i} else marked;
    assert |buf'| == |buf|;
    forall k: nat | k < 8 * |buf'|
      ensures BufBit(buf', k) == (8 * at + k in marked')
    {
      StoreBitAt(buf, i, value, k);
      hide BufBit, StoreBit;
    }
    hide BufBit, StoreBit;
  }

  lemma MoreMarks(f: File, base: int, len: nat, n: nat, marked: set<int>, p: int)
    requires DiskMarks(f, base, len, n, marked) && p >= n
    ensures DiskMarks(f, base, len, n, marked + {p})
  {
    hide DiskBit;
    forall i: nat | i < n
      ensures DiskBit(f, base, i) == DiskBit(f, base + len, i) == (i in marked + {p})
    {
      assert DiskBit(f, base, i) == DiskBit(f, base + len, i) == (i in marked);
    }
  }

  /** bitmap_bufsize * (pfn / bits_per_buf): where in the bitmap a bit is buffered */
  function Window(pfn: nat, P: nat): nat
    requires P > 0
  {
    Edge(Quotient(pfn, 8 * P), P)
  }

  function Quotient(x: nat, w: nat): nat
    requires w > 0
  {
    x / w
  }

  lemma WindowFacts(pfn: nat, P: nat)
    requires P > 0
    ensures 8 * Window(pfn, P) <= pfn < 8 * Window(pfn, P) + 8 * P
    ensures pfn % (8 * P) == pfn - 8 * Window(pfn, P)
    ensures Window(pfn + 8 * P, P) == Window(pfn, P) + P
  {
    var w := 8 * P;
    var k := pfn / w;
    SlotOf(pfn, w);
    assert Edge(k, w) == 8 * (k * P);
    assert Edge(k + 1, w) == Edge(k, w) + w;
    SlotUnique(pfn + w, k + 1, w);
    assert (k + 1) * P == k * P + P;
  }

  /** Windows in order are a whole number of buffers apart. */
  lemma WindowsApart(last: nat, pfn: nat, P: nat) returns (n: nat)
    requires P > 0 && last <= pfn
    ensures Window(pfn, P) == Window(last, P) + n * P
  {
    var w := 8 * P;
    SlotOf(pfn, w);
    SlotOf(last, w);
    if pfn / w < last / w {
      EdgeMonotone(pfn / w + 1, last / w, w);
      Edges(pfn / w, w);
      assert false;
    }
    n := pfn / w - last / w;
    assert (last / w + n) * P == last / w * P + n * P;
  }
}
