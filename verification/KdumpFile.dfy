/** The dump file as positioned records leave it, bits in bytes, and the walk
    over the guest's pages that both passes of a kdump make. */
module KdumpFile {
  import opened Common

  // ---- positioned records

  /** Byte by byte; None where no record has written. */
  type File = int -> Option<Byte>

  const NEW_FILE: File := _ => None

  /** write_buffer */
  function Wrote(f: File, off: int, b: seq<Byte>): File {
    i => if off <= i < off + |b| then Some(b[i - off]) else f(i)
  }

  ghost predicate Has(f: File, off: int, b: seq<Byte>) {
    forall k | 0 <= k < |b| :: f(off + k) == Some(b[k])
  }

  ghost predicate SameOutside(f: File, f': File, lo: int, hi: int) {
    forall i | !(lo <= i < hi) :: f'(i) == f(i)
  }

  lemma WroteHas(f: File, off: int, b: seq<Byte>)
    ensures Has(Wrote(f, off, b), off, b) && SameOutside(f, Wrote(f, off, b), off, off + |b|)
  {
  }

  lemma HasKept(f: File, f': File, lo: int, hi: int, off: int, b: seq<Byte>)
    requires SameOutside(f, f', lo, hi) && Has(f, off, b) && (off + |b| <= lo || hi <= off)
    ensures Has(f', off, b)
  {
  }

  lemma OutsideOn(f: File, f1: File, f2: File, lo: int, hi: int)
    requires SameOutside(f, f1, lo, hi) && SameOutside(f1, f2, lo, hi)
    ensures SameOutside(f, f2, lo, hi)
  {
  }

  lemma OutsideWider(f: File, f': File, lo: int, hi: int, lo': int, hi': int)
    requires SameOutside(f, f', lo, hi) && lo' <= lo && hi <= hi'
    ensures SameOutside(f, f', lo', hi')
  {
  }

  lemma HasJoin(f: File, off: int, a: seq<Byte>, b: seq<Byte>)
    requires Has(f, off, a) && Has(f, off + |a|, b)
    ensures Has(f, off, a + b)
  {
    forall k | 0 <= k < |a + b|
      ensures f(off + k) == Some((a + b)[k])
    {
      if k >= |a| {
        assert f(off + |a| + (k - |a|)) == Some(b[k - |a|]);
      }
    }
  }

  lemma HasSlice(f: File, off: int, b: seq<Byte>, lo: nat, hi: nat)
    requires Has(f, off, b) && lo <= hi <= |b|
    ensures Has(f, off + lo, b[lo..hi])
  {
    forall k | 0 <= k < hi - lo
      ensures f(off + lo + k) == Some(b[lo..hi][k])
    {
      assert f(off + (lo + k)) == Some(b[lo + k]);
    }
  }

  // ---- bits of a byte

  predicate BitOf(b: nat, j: nat) { if j == 0 then b % 2 == 1 else BitOf(b / 2, j - 1) }

  /** b |= 1 << j */
  function SetBit(b: nat, j: nat): nat { if j == 0 then b - b % 2 + 1 else 2 * SetBit(b / 2, j - 1) + b % 2 }

  /** b &= ~(1 << j) */
  function ClearBit(b: nat, j: nat): nat { if j == 0 then b - b % 2 else 2 * ClearBit(b / 2, j - 1) + b % 2 }

  function TwoTo(n: nat): nat { if n == 0 then 1 else 2 * TwoTo(n - 1) }

  lemma {:induction false} BitIsSet(b: nat, j: nat, k: nat)
    ensures BitOf(SetBit(b, j), k) == (k == j || BitOf(b, k))
  {
    if j > 0 {
      var low := SetBit(b / 2, j - 1);
      assert SetBit(b, j) / 2 == low && SetBit(b, j) % 2 == b % 2;
      if k > 0 {
        BitIsSet(b / 2, j - 1, k - 1);
      }
    } else {
      assert SetBit(b, 0) / 2 == b / 2;
    }
  }

  lemma {:induction false} BitIsCleared(b: nat, j: nat, k: nat)
    ensures BitOf(ClearBit(b, j), k) == (k != j && BitOf(b, k))
  {
    if j > 0 {
      var low := ClearBit(b / 2, j - 1);
      assert ClearBit(b, j) / 2 == low && ClearBit(b, j) % 2 == b % 2;
      if k > 0 {
        BitIsCleared(b / 2, j - 1, k - 1);
      }
    } else {
      assert ClearBit(b, 0) / 2 == b / 2;
    }
  }

  lemma {:induction false} BitsBounded(b: nat, j: nat, n: nat)
    requires b < TwoTo(n) && j < n
    ensures SetBit(b, j) < TwoTo(n) && ClearBit(b, j) < TwoTo(n)
  {
    if j > 0 {
      BitsBounded(b / 2, j - 1, n - 1);
    }
  }

  lemma {:induction false} NoBits(k: nat)
    ensures !BitOf(0, k)
  {
    if k > 0 {
      NoBits(k - 1);
    }
  }

  // ---- the bitmap buffer

  predicate BufBit(buf: seq<Byte>, i: nat)
    requires i < 8 * |buf|
  {
    BitOf(buf[i / 8], i % 8)
  }

  /** Bit j is the one of weight two to the j. */
  lemma {:induction false} BitWeight(b: nat, j: nat)
    ensures TwoTo(j) > 0
    ensures BitOf(b, j) <==> b / TwoTo(j) % 2 == 1
  {
    if j > 0 {
      BitWeight(b / 2, j - 1);
      HalfThenDivided(b, TwoTo(j - 1));
    }
  }

  lemma HalfThenDivided(b: nat, t: nat)
    requires t > 0
    ensures b / 2 / t == b / (2 * t)
  {
    var h, u := b / 2, 2 * t;
    var q, r := h / t, h % t;
    assert h == q * t + r;
    assert b == q * u + (2 * r + b % 2);
    DividedBy(b, u, q, 2 * r + b % 2);
  }

  lemma DividedBy(x: nat, u: nat, q: nat, r: nat)
    requires u > 0 && x == q * u + r && r < u
    ensures x / u == q
  {
    var p := x / u;
    assert x == p * u + x % u;
    assert p < q ==> (p + 1) * u <= q * u;
    assert q < p ==> (q + 1) * u <= p * u;
  }

  function StoreBit(buf: seq<Byte>, i: nat, value: bool): seq<Byte>
    requires i < 8 * |buf|
  {
    var b := buf[i / 8];
    BitsBounded(b, i % 8, 8);
    assert TwoTo(4) == 16 && TwoTo(8) == 256;
    buf[i / 8 := if value then SetBit(b, i % 8) else ClearBit(b, i % 8)]
  }

  lemma StoreBitAt(buf: seq<Byte>, i: nat, value: bool, k: nat)
    requires i < 8 * |buf| && k < 8 * |buf|
    ensures BufBit(StoreBit(buf, i, value), k) == if k == i then value else BufBit(buf, k)
  {
    BitIsSet(buf[i / 8], i % 8, k % 8);
    BitIsCleared(buf[i / 8], i % 8, k % 8);
    hide BitOf, SetBit, ClearBit, TwoTo;
  }

  lemma ZeroBits(n: nat, k: nat)
    requires k < 8 * n
    ensures !BufBit(Zeros(n), k)
  {
    NoBits(k % 8);
  }

  // ---- the guest's pages

  /** A guest block in units of pages: its first page frame and its pages. */
  datatype Block = Block(pfn: nat, pages: seq<seq<Byte>>)

  /** A page to dump. */
  datatype Page = Page(pfn: nat, data: seq<Byte>)

  predicate BlocksOk(bs: seq<Block>, P: nat) {
    && P > 0 && bs != []
    && (forall i | 0 <= i < |bs| :: bs[i].pages != [])
    && (forall i, j | 0 <= i < |bs| && 0 <= j < |bs[i].pages| :: |bs[i].pages[j]| == P)
    && (forall i, j | 0 <= i < j < |bs| :: bs[i].pfn + |bs[i].pages| <= bs[j].pfn)
  }

  function PagesOf(b: Block): seq<Page> {
    seq(|b.pages|, j requires 0 <= j < |b.pages| => Page(b.pfn + j, b.pages[j]))
  }

  /** All pages in the order of the walk. */
  function Flat(bs: seq<Block>): seq<Page> {
    if bs == [] then [] else Flat(bs[..|bs| - 1]) + PagesOf(bs[|bs| - 1])
  }

  /** The number of pages in the blocks before block i. */
  function Before(bs: seq<Block>, i: nat): nat
    requires i <= |bs|
  {
    |Flat(bs[..i])|
  }

  lemma BeforeStep(bs: seq<Block>, i: nat)
    requires i < |bs|
    ensures Before(bs, i + 1) == Before(bs, i) + |bs[i].pages|
  {
    assert bs[..i + 1][..i] == bs[..i];
  }

  lemma {:induction false} FlatAt(bs: seq<Block>, i: nat, j: nat)
    requires i < |bs| && j < |bs[i].pages|
    ensures Before(bs, i) + j < |Flat(bs)| && Flat(bs)[Before(bs, i) + j] == Page(bs[i].pfn + j, bs[i].pages[j])
    decreases |bs|
  {
    var n := |bs| - 1;
    if i < n {
      FlatAt(bs[..n], i, j);
      assert bs[..n][..i] == bs[..i];
    }
  }

  /** The walk stands at page k: before the first if k is -1. */
  predicate Stands(bs: seq<Block>, block: Option<nat>, pfn: nat, k: int) {
    match block
    case None => k == -1
    case Some(i) => i < |bs| && bs[i].pfn <= pfn < bs[i].pfn + |bs[i].pages| && k == Before(bs, i) + (pfn - bs[i].pfn)
  }

  /** get_next_page: the pages of the blocks, one after another, each once */
  method GetNextPage(bs: seq<Block>, P: nat, block: Option<nat>, pfn: nat, ghost k: int)
    returns (more: bool, block': Option<nat>, pfn': nat, buf: seq<Byte>)
    requires BlocksOk(bs, P) && Stands(bs, block, pfn, k)
    ensures more == (k + 1 < |Flat(bs)|)
    ensures more ==> Stands(bs, block', pfn', k + 1) && Flat(bs)[k + 1] == Page(pfn', buf)
  {
    hide Flat;
    if block == None {
      FirstPage(bs);
      return true, Some(0), bs[0].pfn, bs[0].pages[0];
    }
    var i := block.value;
    var b := bs[i];
    block', pfn', buf := block, pfn + 1, [];
    BeforeStep(bs, i);
    if b.pfn <= pfn' && pfn' + 1 <= b.pfn + |b.pages| {
      FlatAt(bs, i, pfn' - b.pfn);
      buf := b.pages[pfn' - b.pfn];
    } else {
      if i + 1 == |bs| {
        assert bs[..|bs|] == bs;
        return false, None, pfn', buf;
      }
      block', pfn', buf := Some(i + 1), bs[i + 1].pfn, bs[i + 1].pages[0];
      FlatAt(bs, i + 1, 0);
    }
    return true, block', pfn', buf;
  }

  lemma FirstPage(bs: seq<Block>)
    requires bs != [] && bs[0].pages != []
    ensures Before(bs, 0) == 0 && |Flat(bs)| > 0 && Flat(bs)[0] == Page(bs[0].pfn, bs[0].pages[0])
  {
    FlatAt(bs, 0, 0);
  }
}
