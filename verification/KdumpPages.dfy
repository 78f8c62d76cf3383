/** Page descriptors and page data: what the two areas contain for a list of
    pages, and how a reader gets from a page's rank back to its bytes. */
module KdumpPages {
  import opened Common
  import opened Numbers
  import opened KdumpFile

  // ---- descriptors

  /** PageDescriptor; page_flags is always 0 */
  datatype Desc = Desc(offset: nat, size: nat, flags: nat)

  const DESC_SIZE: nat := 24

  predicate DescOk(d: Desc) { d.offset < TWO64 && d.size < 0x1_0000_0000 && d.flags < 0x1_0000_0000 }

  /** cpu_to_dump32 and cpu_to_dump64: a number in the target's byte order */
  function Num(n: nat, k: nat, big: bool): (b: seq<Byte>)
    ensures |b| == k
  {
    if big then Be(n, k) else Le(n, k)
  }

  function FromNum(b: seq<Byte>, big: bool): nat { if big then FromBe(b) else FromLe(b) }

  lemma NumRoundTrip(n: nat, k: nat, big: bool)
    requires n < Limit(k)
    ensures FromNum(Num(n, k, big), big) == n
  {
    BeRoundTrip(n, k);
    LeRoundTrip(n, k);
  }

  function DescBytes(d: Desc, big: bool): (b: seq<Byte>)
    ensures |b| == DESC_SIZE
  {
    Num(d.offset, 8, big) + Num(d.size, 4, big) + Num(d.flags, 4, big) + Num(0, 8, big)
  }

  function ReadDesc(b: seq<Byte>, big: bool): Desc
    requires |b| == DESC_SIZE
  {
    Desc(FromNum(b[..8], big), FromNum(b[8..12], big), FromNum(b[12..16], big))
  }

  lemma DescRoundTrip(d: Desc, big: bool)
    requires DescOk(d)
    ensures ReadDesc(DescBytes(d, big), big) == d
  {
    Limits();
    NumRoundTrip(d.offset, 8, big);
    NumRoundTrip(d.size, 4, big);
    NumRoundTrip(d.flags, 4, big);
    hide Num, FromNum;
    var b := DescBytes(d, big);
    assert b[..8] == Num(d.offset, 8, big);
    assert b[8..12] == Num(d.size, 4, big);
    assert b[12..16] == Num(d.flags, 4, big);
  }

  /** The bytes of a number with the highest first. */
  function HighFirst(b: seq<Byte>, big: bool): (r: seq<Byte>)
    ensures |r| == |b|
  {
    if big then b else Backwards(b)
  }

  lemma NumOrder(n: nat, k: nat, big: bool)
    ensures HighFirst(Num(n, k, big), big) == Be(n, k)
  {
    LeIsBackwards(n, k);
    hide Be, Le;
    assert Backwards(Backwards(Be(n, k))) == Be(n, k);
  }

  /** The layout of a descriptor: eight bytes of offset, four of size, four of
      flags and eight zero bytes, each number in the target's byte order. */
  lemma DescFormat(d: Desc, big: bool)
    requires DescOk(d)
    ensures var b := DescBytes(d, big);
      && Value8(HighFirst(b[..8], big)) == d.offset && Value4(HighFirst(b[8..12], big)) == d.size
      && Value4(HighFirst(b[12..16], big)) == d.flags && b[16..] == Zeros(8)
  {
    hide Be, Num, HighFirst, Value8, Value4, Zeros;
    Be8Is(d.offset);
    Be4Is(d.size);
    Be4Is(d.flags);
    NumOrder(d.offset, 8, big);
    NumOrder(d.size, 4, big);
    NumOrder(d.flags, 4, big);
    ZeroNum(8, big);
    var b := DescBytes(d, big);
    assert b[..8] == Num(d.offset, 8, big);
    assert b[8..12] == Num(d.size, 4, big);
    assert b[12..16] == Num(d.flags, 4, big);
    assert b[16..] == Num(0, 8, big);
  }

  lemma {:induction false} ZeroNum(k: nat, big: bool)
    ensures Num(0, k, big) == Zeros(k)
  {
    if k > 0 {
      ZeroNum(k - 1, big);
      assert Zeros(k) == Zeros(k - 1) + [0] == [0] + Zeros(k - 1);
    }
  }

  function DescsBytes(ds: seq<Desc>, big: bool): (b: seq<Byte>)
    ensures |b| == DESC_SIZE * |ds|
  {
    if ds == [] then [] else DescsBytes(ds[..|ds| - 1], big) + DescBytes(ds[|ds| - 1], big)
  }

  lemma {:induction false} DescAt(ds: seq<Desc>, big: bool, k: nat)
    requires k < |ds|
    ensures DescsBytes(ds, big)[DESC_SIZE * k..DESC_SIZE * k + DESC_SIZE] == DescBytes(ds[k], big)
    decreases |ds|
  {
    hide DescBytes;
    var n := |ds| - 1;
    var init := DescsBytes(ds[..n], big);
    if k < n {
      DescAt(ds[..n], big, k);
      assert DescsBytes(ds, big)[DESC_SIZE * k..DESC_SIZE * k + DESC_SIZE] == init[DESC_SIZE * k..DESC_SIZE * k + DESC_SIZE];
    }
  }

  // ---- page data

  /** The compressor in use, abstractly. */
  datatype Codec = Codec(flag: nat, compress: seq<Byte> -> Option<seq<Byte>>, decompress: seq<Byte> -> Option<seq<Byte>>)

  ghost predicate Sound(c: Codec) {
    0 < c.flag < 0x1_0000_0000 &&
    forall p: seq<Byte> | c.compress(p).Some? :: c.decompress(c.compress(p).value) == Some(p)
  }

  datatype Stored = Stored(flags: nat, bytes: seq<Byte>)

  /** A page as stored: compressed if that makes it smaller, else as it is. */
  function Store(c: Codec, page: seq<Byte>): Stored {
    var z := c.compress(page);
    if z.Some? && |z.value| < |page| then Stored(c.flag, z.value) else Stored(0, page)
  }

  /** The reader's inverse. */
  function Unstore(c: Codec, s: Stored): Option<seq<Byte>> {
    if s.flags == 0 then Some(s.bytes) else if s.flags == c.flag then c.decompress(s.bytes) else None
  }

  lemma StoreRoundTrip(c: Codec, page: seq<Byte>)
    requires Sound(c)
    ensures Unstore(c, Store(c, page)) == Some(page) && |Store(c, page).bytes| <= |page|
    ensures Store(c, page).flags != 0 <==> c.compress(page).Some? && |c.compress(page).value| < |page|
  {
  }

  // ---- both areas

  datatype Areas = Areas(descs: seq<Desc>, data: seq<Byte>)

  /** One more page; off is where the data area starts in the file. */
  function Added(c: Codec, off: nat, a: Areas, page: seq<Byte>): Areas {
    if page == Zeros(|page|) then Areas(a.descs + [Desc(off, |page|, 0)], a.data)
    else
      var s := Store(c, page);
      Areas(a.descs + [Desc(off + |a.data|, |s.bytes|, s.flags)], a.data + s.bytes)
  }

  /** The areas for a list of pages; the data starts with one zero page that
      all zero pages share. */
  function AreasOf(c: Codec, off: nat, P: nat, pages: seq<Page>): (a: Areas)
    ensures |a.descs| == |pages|
  {
    if pages == [] then Areas([], Zeros(P))
    else Added(c, off, AreasOf(c, off, P, pages[..|pages| - 1]), pages[|pages| - 1].data)
  }

  /** The descriptor leads to bytes that give the page back. */
  predicate Leads(c: Codec, off: nat, data: seq<Byte>, d: Desc, page: seq<Byte>) {
    off <= d.offset && d.offset - off + d.size <= |data| &&
    Unstore(c, Stored(d.flags, data[d.offset - off..d.offset - off + d.size])) == Some(page)
  }

  lemma LeadsOn(c: Codec, off: nat, data: seq<Byte>, more: seq<Byte>, d: Desc, page: seq<Byte>)
    requires Leads(c, off, data, d, page)
    ensures Leads(c, off, data + more, d, page)
  {
    var lo := d.offset - off;
    assert (data + more)[lo..lo + d.size] == data[lo..lo + d.size];
  }

  lemma AddedLeads(c: Codec, off: nat, P: nat, a: Areas, page: seq<Byte>)
    requires Sound(c) && |page| == P && Zeros(P) <= a.data
    ensures var a' := Added(c, off, a, page); Leads(c, off, a'.data, a'.descs[|a.descs|], page)
  {
    StoreRoundTrip(c, page);
    hide Unstore, Store, Sound, Zeros;
    var s := Store(c, page);
    if page == Zeros(P) {
      assert a.data[0..P] == page;
      PlainUnstores(c, page);
    } else {
      assert (a.data + s.bytes)[|a.data|..|a.data| + |s.bytes|] == s.bytes;
    }
  }

  lemma PlainUnstores(c: Codec, page: seq<Byte>)
    ensures Unstore(c, Stored(0, page)) == Some(page)
  {
  }

  /** Every page's descriptor leads to the page. */
  lemma {:induction false} AllLead(c: Codec, off: nat, P: nat, pages: seq<Page>, k: nat)
    requires Sound(c) && k < |pages| && forall i | 0 <= i < |pages| :: |pages[i].data| == P
    ensures var a := AreasOf(c, off, P, pages); Zeros(P) <= a.data && Leads(c, off, a.data, a.descs[k], pages[k].data)
    decreases |pages|
  {
    var n := |pages| - 1;
    var init, page := pages[..n], pages[n].data;
    var a := AreasOf(c, off, P, init);
    ZeroPageFirst(c, off, P, init);
    ZeroPageFirst(c, off, P, pages);
    hide Leads, Sound, Zeros, Store;
    if k == n {
      AddedLeads(c, off, P, a, page);
    } else {
      AllLead(c, off, P, init, k);
      AddedKeeps(c, off, a, page, k, pages[k].data);
    }
  }

  lemma AddedKeeps(c: Codec, off: nat, a: Areas, page: seq<Byte>, k: nat, old': seq<Byte>)
    requires k < |a.descs| && Leads(c, off, a.data, a.descs[k], old')
    ensures var a' := Added(c, off, a, page); |a'.descs| == |a.descs| + 1 && Leads(c, off, a'.data, a'.descs[k], old')
  {
    hide Leads, Store;
    LeadsOn(c, off, a.data, Store(c, page).bytes, a.descs[k], old');
  }

  lemma {:induction false} ZeroPageFirst(c: Codec, off: nat, P: nat, pages: seq<Page>)
    ensures Zeros(P) <= AreasOf(c, off, P, pages).data
  {
    if pages != [] {
      ZeroPageFirst(c, off, P, pages[..|pages| - 1]);
      hide Store, Zeros;
    }
  }

  predicate AllZero(page: seq<Byte>) { forall i | 0 <= i < |page| :: page[i] == 0 }

  /** All zero pages, and no other, have the descriptor of the first page of
      the data area; the others follow it, each behind those before. */
  lemma {:induction false} ZeroPagesShare(c: Codec, off: nat, P: nat, pages: seq<Page>, k: nat)
    requires P > 0 && k < |pages| && forall i | 0 <= i < |pages| :: |pages[i].data| == P
    ensures var a := AreasOf(c, off, P, pages);
      var d := a.descs[k];
      && (AllZero(pages[k].data) ==> d == Desc(off, P, 0))
      && (!AllZero(pages[k].data) ==> off + P <= d.offset && d.offset + d.size <= off + |a.data|)
      && forall j | 0 <= j < k :: !AllZero(pages[k].data) && !AllZero(pages[j].data) ==> a.descs[j].offset + a.descs[j].size <= d.offset
    decreases |pages|
  {
    var n := |pages| - 1;
    var init, page := pages[..n], pages[n].data;
    var a := AreasOf(c, off, P, init);
    ZeroPageFirst(c, off, P, init);
    assert AllZero(page) <==> page == Zeros(P);
    hide Zeros, Store, AllZero;
    if k < n {
      ZeroPagesShare(c, off, P, init, k);
      assert forall j | 0 <= j <= k :: init[j] == pages[j];
    } else {
      forall j | 0 <= j < n
        ensures !AllZero(pages[j].data) ==> a.descs[j].offset + a.descs[j].size <= off + |a.data|
      {
        ZeroPagesShare(c, off, P, init, j);
        assert init[j] == pages[j];
      }
    }
  }

  lemma AreasStep(c: Codec, off: nat, P: nat, pages: seq<Page>, k: nat)
    requires k < |pages|
    ensures AreasOf(c, off, P, pages[..k + 1]) == Added(c, off, AreasOf(c, off, P, pages[..k]), pages[k].data)
  {
    assert pages[..k + 1][..k] == pages[..k];
  }

  // ---- ranks

  /** The page frames dumped. */
  function Pfns(pages: seq<Page>): (r: set<int>)
    ensures forall p :: p in r <==> exists k :: 0 <= k < |pages| && pages[k].pfn == p
  {
    if pages == [] then {}
    else
      var n := |pages| - 1;
      var r := Pfns(pages[..n]) + {pages[n].pfn};
      assert forall p :: p in r <==> exists k :: 0 <= k < |pages| && pages[k].pfn == p by {
        forall p
          ensures p in r <==> exists k :: 0 <= k < |pages| && pages[k].pfn == p
        {
          if p in Pfns(pages[..n]) {
            var k :| 0 <= k < n && pages[..n][k].pfn == p;
            assert pages[k].pfn == p;
          }
          if exists k :: 0 <= k < |pages| && pages[k].pfn == p {
            var k :| 0 <= k < |pages| && pages[k].pfn == p;
            assert k < n ==> pages[..n][k].pfn == p;
          }
        }
      }
      r
  }

  predicate Increasing(pages: seq<Page>) {
    forall i, j | 0 <= i < j < |pages| :: pages[i].pfn < pages[j].pfn
  }

  /** The set bits below a page frame are as many as its descriptors before. */
  lemma {:induction false} RankIsIndex(pages: seq<Page>, k: nat)
    requires Increasing(pages) && k < |pages|
    ensures |set p | p in Pfns(pages) && p < pages[k].pfn| == k
    decreases |pages|
  {
    var n := |pages| - 1;
    var init := pages[..n];
    hide Pfns;
    if k < n {
      RankIsIndex(init, k);
      assert (set p | p in Pfns(pages) && p < pages[k].pfn) == set p | p in Pfns(init) && p < init[k].pfn by {
        PfnsStep(pages);
      }
    } else {
      PfnsCount(init);
      assert (set p | p in Pfns(pages) && p < pages[k].pfn) == Pfns(init) by {
        PfnsStep(pages);
        forall p | p in Pfns(init)
          ensures p < pages[n].pfn
        {
          var i :| 0 <= i < |init| && init[i].pfn == p;
          assert pages[i].pfn < pages[n].pfn;
        }
      }
    }
  }

  lemma PfnsStep(pages: seq<Page>)
    requires pages != []
    ensures Pfns(pages) == Pfns(pages[..|pages| - 1]) + {pages[|pages| - 1].pfn}
  {
  }

  lemma {:induction false} PfnsCount(pages: seq<Page>)
    requires Increasing(pages)
    ensures |Pfns(pages)| == |pages|
  {
    if pages != [] {
      var n := |pages| - 1;
      PfnsCount(pages[..n]);
      PfnsStep(pages);
      assert pages[n].pfn !in Pfns(pages[..n]) by {
        forall k | 0 <= k < n
          ensures pages[..n][k].pfn != pages[n].pfn
        {
          assert pages[k].pfn < pages[n].pfn;
        }
      }
    }
  }

  // ---- sizes

  lemma {:induction false} DataSize(c: Codec, off: nat, P: nat, pages: seq<Page>)
    requires forall i | 0 <= i < |pages| :: |pages[i].data| == P
    ensures |AreasOf(c, off, P, pages).data| <= (|pages| + 1) * P
  {
    if pages != [] {
      var n := |pages| - 1;
      DataSize(c, off, P, pages[..n]);
      assert (n + 2) * P == (n + 1) * P + P;
      hide Zeros;
    }
  }

  /** A descriptor that leads somewhere inside a small enough file can be
      stored in its fields. */
  lemma LeadingDescOk(c: Codec, off: nat, data: seq<Byte>, d: Desc, page: seq<Byte>)
    requires Sound(c) && Leads(c, off, data, d, page) && off + |data| < TWO64 && |data| > 0 && d.size < 0x1_0000_0000
    ensures DescOk(d)
  {
  }

  lemma {:induction false} DescSizes(c: Codec, off: nat, P: nat, pages: seq<Page>, k: nat)
    requires k < |pages| && forall i | 0 <= i < |pages| :: |pages[i].data| == P
    ensures AreasOf(c, off, P, pages).descs[k].size <= P
    decreases |pages|
  {
    var n := |pages| - 1;
    hide Zeros;
    if k < n {
      DescSizes(c, off, P, pages[..n], k);
    }
  }
}
