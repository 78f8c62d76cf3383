/** Where the areas of a kdump-compressed file are.  Both offsets are computed
    in 32 bits before they are stored in 64: here is what that gives, and
    exactly when headers, bitmaps and pages end up apart. */
module KdumpLayout {
  import opened Common
  import opened Slots
  import opened KdumpBitmap

  /** DIV_ROUND_UP */
  function DivUp(n: nat, d: nat): nat
    requires d > 0
  {
    Quotient(n + d - 1, d)
  }

  lemma DivUpTimes(n: nat, d: nat)
    requires d > 0
    ensures Edge(DivUp(n, d), d) == RoundUp(n, d) >= n
  {
    var m := n + d - 1;
    assert m == d * (m / d) + m % d;
    Rounding(n, d);
  }

  /** len_dump_bitmap */
  function BitmapLen(max: nat, P: nat): nat
    requires P > 0
  {
    Edge(DivUp(DivUp(max, 8), P), P)
  }

  // ---- create_header: uint32_t throughout

  /** sub_hdr_size, of a sub-header and notes of so many bytes together */
  function SubHdrSize(front: nat, P: nat): nat
    requires P > 0
  {
    Quotient((front % TWO32 + P - 1) % TWO32, P)
  }

  /** bitmap_blocks */
  function BitmapBlocks(len: nat, P: nat): nat
    requires P > 0
  {
    DivUp(len, P) * 2 % TWO32
  }

  /** A number of blocks times block_size. */
  function OffsetOf(blocks: nat, P: nat): nat { Edge(blocks % TWO32, P) % TWO32 }

  /** offset_dump_bitmap */
  function BitmapOffset(front: nat, P: nat): nat
    requires P > 0
  {
    OffsetOf(1 + SubHdrSize(front, P), P)
  }

  /** offset_page */
  function PageOffset(front: nat, len: nat, P: nat): nat
    requires P > 0
  {
    OffsetOf(1 + SubHdrSize(front, P) + BitmapBlocks(len, P), P)
  }

  // ---- the same without a limit

  function FrontEnd(front: nat, P: nat): nat
    requires P > 0
  {
    Edge(1 + DivUp(front, P), P)
  }

  predicate Fits32(front: nat, len: nat, P: nat)
    requires P > 0
  {
    FrontEnd(front, P) + Edge(DivUp(len, P) * 2, P) < TWO32
  }

  lemma AddMultiple(x: int, k: int, m: int)
    requires m > 0
    ensures (x + k * m) % m == x % m
  {
    var q, r := x / m, x % m;
    assert x == m * q + r;
    assert x + k * m == m * (q + k) + r;
    Remainder(x + k * m, q + k, r, m);
  }

  lemma Remainder(x: int, q: int, r: int, m: int)
    requires m > 0 && x == m * q + r && 0 <= r < m
    ensures x % m == r
  {
    var q', r' := x / m, x % m;
    assert x == m * q' + r';
    var d := q' - q;
    assert m * d == r - r';
    assert d >= 1 ==> m * d >= m;
    assert d <= -1 ==> m * d <= -m;
  }

  lemma OffsetIs(n: nat, P: nat)
    ensures OffsetOf(n, P) == Edge(n, P) % TWO32
  {
    var q, r := n / TWO32, n % TWO32;
    assert n == q * TWO32 + r;
    assert Edge(n, P) == Edge(r, P) + (q * P) * TWO32;
    AddMultiple(Edge(r, P), q * P, TWO32);
  }

  lemma OffsetOfSum(a: nat, b: nat, P: nat)
    ensures OffsetOf(a + b % TWO32, P) == (Edge(a, P) + Edge(b, P)) % TWO32
  {
    var q, r := b / TWO32, b % TWO32;
    assert b == q * TWO32 + r;
    OffsetIs(a + r, P);
    assert Edge(a + r, P) + (q * P) * TWO32 == Edge(a, P) + Edge(b, P);
    AddMultiple(Edge(a + r, P), q * P, TWO32);
  }

  /** The sub-header size is right as long as its sum does not wrap. */
  lemma OffsetsAre(front: nat, len: nat, P: nat)
    requires P > 0 && front + P - 1 < TWO32
    ensures BitmapOffset(front, P) == FrontEnd(front, P) % TWO32
    ensures PageOffset(front, len, P) == (FrontEnd(front, P) + Edge(DivUp(len, P) * 2, P)) % TWO32
  {
    assert SubHdrSize(front, P) == DivUp(front, P);
    hide Quotient, OffsetOf, Edge;
    OffsetIs(1 + DivUp(front, P), P);
    OffsetOfSum(1 + DivUp(front, P), DivUp(len, P) * 2, P);
  }

  lemma FrontBounds(front: nat, P: nat)
    requires P > 0
    ensures P + front <= FrontEnd(front, P) < P + front + P
  {
    DivUpTimes(front, P);
    Rounding(front, P);
    Edges(DivUp(front, P), P);
  }

  lemma WholeMultiple(m: nat, P: nat)
    requires P > 0
    ensures DivUp(Edge(m, P), P) == m && Edge(m * 2, P) == 2 * Edge(m, P)
  {
    SlotUnique(Edge(m, P) + P - 1, m, P);
  }

  lemma LenBlocks(max: nat, P: nat)
    requires P > 0
    ensures var len := BitmapLen(max, P); Edge(DivUp(len, P) * 2, P) == 2 * len
  {
    WholeMultiple(DivUp(DivUp(max, 8), P), P);
  }

  /** The bitmaps start behind the notes and the pages behind the bitmaps, if
      and only if the offsets fit 32 bits. */
  lemma FitsIff(front: nat, max: nat, P: nat)
    requires 0 < P < TWO32
    ensures var len := BitmapLen(max, P);
      Fits32(front, len, P) <==> P + front <= BitmapOffset(front, P) && PageOffset(front, len, P) == BitmapOffset(front, P) + 2 * len
    ensures var len := BitmapLen(max, P);
      Fits32(front, len, P) ==> BitmapOffset(front, P) == FrontEnd(front, P)
  {
    var len := BitmapLen(max, P);
    LenBlocks(max, P);
    FrontBounds(front, P);
    hide BitmapLen, DivUp, FrontEnd, Edge, BitmapOffset, PageOffset;
    Below32(front, len, P);
    if front + P - 1 < TWO32 {
      OffsetsAre(front, len, P);
      var f := FrontEnd(front, P);
      Wrapped(f);
      Wrapped(f + 2 * len);
    }
  }

  lemma Below32(front: nat, len: nat, P: nat)
    requires P > 0
    ensures BitmapOffset(front, P) < TWO32 && PageOffset(front, len, P) < TWO32
  {
  }

  lemma Wrapped(x: nat)
    ensures x < TWO32 ==> x % TWO32 == x
    ensures x >= TWO32 ==> x % TWO32 <= x - TWO32
  {
  }

  // ---- areas apart

  predicate Apart(lo: int, hi: int, lo': int, hi': int) { hi <= lo' || hi' <= lo }

  /** Headers and notes, bitmaps, and descriptors and data do not overlap. */
  predicate Separate(front: nat, len: nat, P: nat, size: nat)
    requires P > 0
  {
    var bitmap, page := BitmapOffset(front, P), PageOffset(front, len, P);
    && Apart(0, P + front, bitmap, bitmap + 2 * len)
    && Apart(0, P + front, page, page + size)
    && Apart(bitmap, bitmap + 2 * len, page, page + size)
  }

  lemma EdgeSum(a: nat, b: nat, P: nat)
    ensures Edge(a + b, P) == Edge(a, P) + Edge(b, P)
  {
  }

  lemma BothMultiples(a: nat, b: nat, P: nat)
    requires P > 0 && Edge(a, P) < Edge(b, P)
    ensures Edge(a, P) + P <= Edge(b, P)
  {
    if a >= b {
      EdgeMonotone(b, a, P);
    } else {
      EdgeMonotone(a + 1, b, P);
      Edges(a, P);
    }
  }

  /** With a page size that divides 2 to the 32nd, offsets are at page bounds. */
  lemma OffsetAtBound(n: nat, P: nat) returns (k: nat)
    requires P > 0 && TWO32 % P == 0
    ensures Edge(n, P) % TWO32 == Edge(k, P)
  {
    var c := TWO32 / P;
    assert TWO32 == P * c;
    k := n % c;
    var q := n / c;
    assert n == c * q + k;
    assert Edge(n, P) == TWO32 * q + Edge(k, P);
    assert Edge(k, P) < TWO32 by {
      EdgeMonotone(k + 1, c, P);
      Edges(k, P);
    }
    Remainder(Edge(n, P), q, Edge(k, P), TWO32);
  }

  /** The areas of a file with at least one page are apart if and only if the
      offsets fit 32 bits. */
  lemma SeparateIff(front: nat, max: nat, P: nat, size: nat)
    requires 0 < P < TWO32 && TWO32 % P == 0 && max > 0 && size > P
    ensures Separate(front, BitmapLen(max, P), P, size) <==> Fits32(front, BitmapLen(max, P), P)
  {
    var len := BitmapLen(max, P);
    FitsIff(front, max, P);
    LenPositive(max, P);
    FrontBounds(front, P);
    Below32(front, len, P);
    hide BitmapLen, DivUp, FrontEnd, BitmapOffset, PageOffset, Fits32, Edge;
    if !Fits32(front, len, P) && front + P - 1 < TWO32 {
      TooLong(front, max, P, size);
    }
  }

  lemma LenPositive(max: nat, P: nat)
    requires P > 0 && max > 0
    ensures BitmapLen(max, P) > 0
  {
    DivUpTimes(DivUp(max, 8), P);
  }

  lemma TooLong(front: nat, max: nat, P: nat, size: nat)
    requires 0 < P < TWO32 && TWO32 % P == 0 && max > 0 && size > P && front + P - 1 < TWO32
    requires !Fits32(front, BitmapLen(max, P), P)
    ensures !Separate(front, BitmapLen(max, P), P, size)
  {
    var len, f := BitmapLen(max, P), FrontEnd(front, P);
    LenPositive(max, P);
    LenBlocks(max, P);
    FrontBounds(front, P);
    OffsetsAre(front, len, P);
    Wrapped(f);
    Wrapped(f + 2 * len);
    PageAtBound(front, len, P);
    hide BitmapLen, DivUp, FrontEnd, BitmapOffset, PageOffset, Edge;
  }

  /** If the page area does not start behind the front, it starts a page before
      its end. */
  lemma PageAtBound(front: nat, len: nat, P: nat)
    requires 0 < P && TWO32 % P == 0 && front + P - 1 < TWO32
    ensures var page, f := PageOffset(front, len, P), FrontEnd(front, P); page < f ==> page + P <= f
  {
    hide PageOffset, BitmapOffset, DivUp, Edge;
    OffsetsAre(front, len, P);
    var a, b := 1 + DivUp(front, P), DivUp(len, P) * 2;
    EdgeSum(a, b, P);
    var k := OffsetAtBound(a + b, P);
    if Edge(k, P) < Edge(a, P) {
      BothMultiples(k, a, P);
    }
  }

  /** 4096-byte pages and a last page frame at 64 tebibytes: descriptors start
      where the first bitmap starts. */
  lemma DescriptorsOverBitmap(front: nat)
    requires 0 < front <= 0x1000_0000
    ensures var len := BitmapLen(0x4_0000_0000, 4096);
      len == 0x8000_0000 && PageOffset(front, len, 4096) == BitmapOffset(front, 4096) && !Separate(front, len, 4096, 5000)
  {
    var len := BitmapLen(0x4_0000_0000, 4096);
    LenBlocks(0x4_0000_0000, 4096);
    OffsetsAre(front, len, 4096);
    FrontBounds(front, 4096);
    AddMultiple(FrontEnd(front, 4096), 1, TWO32);
  }
}
