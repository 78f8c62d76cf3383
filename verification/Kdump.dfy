/** Writing a kdump-compressed file: headers, both bitmaps, descriptors and
    data, and what a reader of the finished file finds in it. */
module Kdump {
  import opened Common
  import opened Numbers
  import opened Slots
  import opened KdumpLayout
  import opened KdumpFile
  import opened KdumpBitmap
  import opened KdumpPages

  // ---- geometry

  /** max_mapnr: one past the last page frame */
  function MaxMapnr(bs: seq<Block>): nat
    requires bs != []
  {
    var last := bs[|bs| - 1];
    last.pfn + |last.pages|
  }

  /** The bitmap is just long enough: its last window holds the last frame. */
  lemma BitmapFits(max: nat, pfn: nat, P: nat)
    requires P > 0 && pfn < max
    ensures Window(pfn, P) + P <= BitmapLen(max, P)
    ensures pfn == max - 1 ==> Window(pfn, P) + P == BitmapLen(max, P)
    ensures max <= 8 * BitmapLen(max, P)
  {
    var c := DivUp(max, 8);
    DivUpTimes(c, P);
    Rounding(c, P);
    WindowFacts(pfn, P);
    var w, len := Window(pfn, P), BitmapLen(max, P);
    var m, n := Quotient(pfn, 8 * P), DivUp(c, P);
    hide Window, BitmapLen, RoundUp, RoundDown;
    assert c == (max + 7) / 8;
    assert w < len && len < c + P;
    EdgesOrder(m, n, P);
    assert pfn == max - 1 ==> c <= w + P;
    EdgesOrder(n, m + 1, P);
    EdgesOrder(m + 1, n, P);
    Edges(m, P);
  }

  lemma EdgesOrder(m: nat, n: nat, P: nat)
    requires P > 0
    ensures Edge(m, P) < Edge(n, P) ==> m < n && Edge(m, P) + P <= Edge(n, P)
  {
    if m >= n {
      EdgeMonotone(n, m, P);
    } else {
      EdgeMonotone(m + 1, n, P);
      Edges(m, P);
    }
  }

  // ---- the walk is in order

  lemma {:induction false} FlatBelow(bs: seq<Block>, P: nat, bound: nat)
    requires P > 0 && forall i | 0 <= i < |bs| :: bs[i].pfn + |bs[i].pages| <= bound
    requires forall i, j | 0 <= i < |bs| && 0 <= j < |bs[i].pages| :: |bs[i].pages[j]| == P
    ensures forall k | 0 <= k < |Flat(bs)| :: Flat(bs)[k].pfn < bound && |Flat(bs)[k].data| == P
  {
    if bs != [] {
      FlatBelow(bs[..|bs| - 1], P, bound);
    }
  }

  lemma {:induction false} FlatInOrder(bs: seq<Block>, P: nat)
    requires P > 0
    requires forall i, j | 0 <= i < |bs| && 0 <= j < |bs[i].pages| :: |bs[i].pages[j]| == P
    requires forall i, j | 0 <= i < j < |bs| :: bs[i].pfn + |bs[i].pages| <= bs[j].pfn
    ensures Increasing(Flat(bs))
  {
    if bs != [] {
      var n := |bs| - 1;
      FlatInOrder(bs[..n], P);
      FlatBelow(bs[..n], P, bs[n].pfn);
    }
  }

  lemma FlatFacts(bs: seq<Block>, P: nat)
    requires BlocksOk(bs, P)
    ensures Increasing(Flat(bs)) && |Flat(bs)| > 0 && Flat(bs)[|Flat(bs)| - 1].pfn == MaxMapnr(bs) - 1
    ensures forall k | 0 <= k < |Flat(bs)| :: Flat(bs)[k].pfn < MaxMapnr(bs) && |Flat(bs)[k].data| == P
  {
    var n := |bs| - 1;
    FlatInOrder(bs, P);
    FlatBelow(bs, P, MaxMapnr(bs));
    FlatAt(bs, n, |bs[n].pages| - 1);
    BeforeStep(bs, n);
    assert bs[..n + 1] == bs;
  }

  // ---- caches

  /** Everything put through the cache is at base in the file, or buffered. */
  ghost predicate CacheOk(f: File, base: nat, offset: nat, buf: seq<Byte>, all: seq<Byte>) {
    base <= offset && offset - base + |buf| == |all| && buf == all[offset - base..] && Has(f, base, all[..offset - base])
  }

  lemma CacheFlushed(f: File, base: nat, offset: nat, buf: seq<Byte>, all: seq<Byte>)
    requires CacheOk(f, base, offset, buf, all)
    ensures CacheOk(Wrote(f, offset, buf), base, offset + |buf|, [], all)
    ensures SameOutside(f, Wrote(f, offset, buf), base, base + |all|)
  {
    hide Wrote, Has, SameOutside;
    var f' := Wrote(f, offset, buf);
    var n := offset - base;
    WroteHas(f, offset, buf);
    HasKept(f, f', offset, offset + |buf|, base, all[..n]);
    HasJoin(f', base, all[..n], buf);
    assert all[..n] + buf == all;
    assert all[..|all|] == all && all[|all|..] == [];
    OutsideWider(f, f', offset, offset + |buf|, base, base + |all|);
  }

  lemma CacheAppended(f: File, base: nat, offset: nat, buf: seq<Byte>, all: seq<Byte>, data: seq<Byte>)
    requires CacheOk(f, base, offset, buf, all)
    ensures CacheOk(f, base, offset, buf + data, all + data)
  {
    var n := offset - base;
    assert (all + data)[..n] == all[..n];
    assert (all + data)[n..] == buf + data;
  }

  lemma CacheKept(f: File, f': File, lo: int, hi: int, base: nat, offset: nat, buf: seq<Byte>, all: seq<Byte>)
    requires CacheOk(f, base, offset, buf, all) && SameOutside(f, f', lo, hi) && (base + |all| <= lo || hi <= base)
    ensures CacheOk(f', base, offset, buf, all)
  {
    HasKept(f, f', lo, hi, base, all[..offset - base]);
  }

  /** The area is complete once nothing is buffered. */
  lemma CacheEmpty(f: File, base: nat, offset: nat, all: seq<Byte>)
    requires CacheOk(f, base, offset, [], all)
    ensures Has(f, base, all)
  {
    assert all[..offset - base] == all;
  }

  class DataCache {
    const base: nat
    const bufSize: nat
    var offset: nat
    var buf: seq<Byte>
    ghost var all: seq<Byte>        // everything put so far

    /** prepare_data_cache */
    constructor (offset: nat, bufSize: nat)
      ensures base == offset && this.offset == offset && this.bufSize == bufSize && buf == [] && all == []
    {
      base, this.bufSize, this.offset, buf, all := offset, bufSize, offset, [], [];
    }

    ghost predicate Ok(f: File)
      reads this
    {
      CacheOk(f, base, offset, buf, all) && |buf| <= bufSize
    }

    /** write_cache; the file with what had to be flushed */
    method Write(file: File, data: seq<Byte>, sync: bool) returns (file': File)
      requires Ok(file) && |data| <= bufSize && (sync ==> data == [])
      modifies this
      ensures Ok(file') && all == old(all) + data && SameOutside(file, file', base, base + |old(all)|)
      ensures sync ==> Has(file', base, all)
    {
      hide CacheOk, Wrote, SameOutside, Has;
      file' := file;
      SameSelf(file, base, base + |all|);
      if (!sync && |buf| + |data| > bufSize) || (sync && |buf| > 0) {
        CacheFlushed(file, base, offset, buf, all);
        file' := Wrote(file, offset, buf);
        offset, buf := offset + |buf|, [];
      }
      if sync {
        CacheEmpty(file', base, offset, all);
      } else {
        CacheAppended(file', base, offset, buf, all, data);
        buf, all := buf + data, all + data;
      }
    }
  }

  lemma SameSelf(f: File, lo: int, hi: int)
    ensures SameOutside(f, f, lo, hi)
  {
  }

  // ---- the dump

  /** What a reader finds for the k-th page: the descriptor at its rank leads
      to bytes that decode to the page. */
  ghost predicate PageOnDisk(f: File, offsetPage: nat, c: Codec, big: bool, k: nat, page: seq<Byte>) {
    exists b: seq<Byte>, z: seq<Byte> ::
      && |b| == DESC_SIZE && Has(f, offsetPage + DESC_SIZE * k, b)
      && Has(f, ReadDesc(b, big).offset, z) && |z| == ReadDesc(b, big).size
      && Unstore(c, Stored(ReadDesc(b, big).flags, z)) == Some(page)
  }

  /** Both areas on disk put every page on disk. */
  lemma PagesReadBack(f: File, offsetPage: nat, c: Codec, big: bool, P: nat, pages: seq<Page>, k: nat)
    requires Sound(c) && 0 < P < 0x1_0000_0000 && k < |pages| && forall i | 0 <= i < |pages| :: |pages[i].data| == P
    requires var off := offsetPage + DESC_SIZE * |pages|;
      var a := AreasOf(c, off, P, pages);
      Has(f, offsetPage, DescsBytes(a.descs, big)) && Has(f, off, a.data) && off + |a.data| < TWO64
    ensures PageOnDisk(f, offsetPage, c, big, k, pages[k].data)
  {
    hide AreasOf, Has, Unstore, DescsBytes, Sound, DescBytes, PageOnDisk, Zeros;
    var off := offsetPage + DESC_SIZE * |pages|;
    var a := AreasOf(c, off, P, pages);
    AllLead(c, off, P, pages, k);
    DescSizes(c, off, P, pages, k);
    DescAt(a.descs, big, k);
    var d := a.descs[k];
    LeadingDescOk(c, off, a.data, d, pages[k].data);
    HasSlice(f, offsetPage, DescsBytes(a.descs, big), DESC_SIZE * k, DESC_SIZE * k + DESC_SIZE);
    var lo := d.offset - off;
    HasSlice(f, off, a.data, lo, lo + d.size);
    ReadsBack(f, offsetPage, c, big, k, d, a.data[lo..lo + d.size], pages[k].data);
  }

  lemma ReadsBack(f: File, offsetPage: nat, c: Codec, big: bool, k: nat, d: Desc, z: seq<Byte>, page: seq<Byte>)
    requires DescOk(d) && Has(f, offsetPage + DESC_SIZE * k, DescBytes(d, big)) && Has(f, d.offset, z) && |z| == d.size
    requires Unstore(c, Stored(d.flags, z)) == Some(page)
    ensures PageOnDisk(f, offsetPage, c, big, k, page)
  {
    DescRoundTrip(d, big);
    hide ReadDesc, DescBytes, Has, Unstore;
    var b := DescBytes(d, big);
    assert Has(f, ReadDesc(b, big).offset, z);
  }

  class KdumpWriter {
    const blocks: seq<Block>        // guest_phys_blocks
    const P: nat                    // page_size
    const codec: Codec              // flag_compress and its library
    const big: bool                 // d_endian
    const header: seq<Byte>
    const sub: seq<Byte>
    const notes: seq<Byte>
    var file: File
    var lenBitmap: nat              // len_dump_bitmap
    var offsetBitmap: nat           // offset_dump_bitmap
    var offsetPage: nat             // offset_page
    var numDumpable: nat            // num_dumpable

    constructor (blocks: seq<Block>, P: nat, codec: Codec, big: bool, header: seq<Byte>, sub: seq<Byte>, notes: seq<Byte>)
      ensures this.blocks == blocks && this.P == P && this.codec == codec && this.big == big
      ensures this.header == header && this.sub == sub && this.notes == notes && file == NEW_FILE
    {
      this.blocks, this.P, this.codec, this.big := blocks, P, codec, big;
      this.header, this.sub, this.notes := header, sub, notes;
      file, lenBitmap, offsetBitmap, offsetPage, numDumpable := NEW_FILE, 0, 0, 0, 0;
    }

    /** What the caller sets up before the file is written. */
    ghost predicate Ready() {
      BlocksOk(blocks, P) && P < TWO32 && DESC_SIZE <= 4 * P && |header| <= P
    }

    function Front(): nat { |sub| + |notes| }

    /** The areas as the header function computes them, in 32 bits. */
    ghost predicate Planned()
      requires P > 0 && blocks != []
      reads this
    {
      && lenBitmap == BitmapLen(MaxMapnr(blocks), P)
      && offsetBitmap == BitmapOffset(Front(), P) && offsetPage == PageOffset(Front(), lenBitmap, P)
    }

    /** The offsets fit their 32 bits. */
    ghost predicate Fits()
      requires P > 0 && blocks != []
    {
      Fits32(Front(), BitmapLen(MaxMapnr(blocks), P), P)
    }

    /** write_buffer */
    method WriteBuffer(offset: nat, data: seq<Byte>)
      modifies this`file
      ensures file == Wrote(old(file), offset, data)
    {
      file := Wrote(file, offset, data);
    }

    /** get_max_mapnr and create_header: the front of the file, and the offsets
        of all that follows */
    method WriteDumpHeader()
      requires Ready()
      modifies this
      ensures Planned() && Has(file, 0, header) && Has(file, P, sub) && Has(file, P + |sub|, notes)
      ensures Fits() <==> P + Front() <= offsetBitmap && offsetPage == offsetBitmap + 2 * lenBitmap
    {
      hide Wrote, Has, SameOutside, BitmapLen, DivUp, BlocksOk, SubHdrSize, BitmapBlocks, OffsetOf, Fits32;
      ReadyFacts(blocks, P);
      var last := blocks[|blocks| - 1];
      var maxMapnr := last.pfn + |last.pages|;
      lenBitmap := BitmapLen(maxMapnr, P);
      var subHdrSize := SubHdrSize(|sub| + |notes|, P);
      var bitmapBlocks := BitmapBlocks(lenBitmap, P);
      WriteBuffer(0, header);
      ghost var f1 := file;
      WroteHas(old(file), 0, header);
      WriteBuffer(P, sub);
      ghost var f2 := file;
      WroteHas(f1, P, sub);
      HasKept(f1, f2, P, P + |sub|, 0, header);
      WriteBuffer(P + |sub|, notes);
      WroteHas(f2, P + |sub|, notes);
      HasKept(f2, file, P + |sub|, P + |sub| + |notes|, 0, header);
      HasKept(f2, file, P + |sub|, P + |sub| + |notes|, P, sub);
      offsetBitmap := OffsetOf(1 + subHdrSize, P);
      offsetPage := OffsetOf(1 + subHdrSize + bitmapBlocks, P);
      FitsIff(|sub| + |notes|, maxMapnr, P);
    }

    /** set_dump_bitmap */
    method SetDumpBitmap(lastPfn: nat, pfn: nat, value: bool, buf: seq<Byte>, ghost marked: set<int>) returns (buf': seq<Byte>)
      requires P > 0 && lastPfn <= pfn && |buf| == P && Window(pfn, P) <= lenBitmap
      requires Bitmaps(file, offsetBitmap, lenBitmap, buf, Window(lastPfn, P), marked)
      requires !value ==> Window(lastPfn, P) < Window(pfn, P)
      modifies this`file
      ensures |buf'| == P && SameOutside(old(file), file, offsetBitmap, offsetBitmap + 2 * lenBitmap)
      ensures Bitmaps(file, offsetBitmap, lenBitmap, buf', Window(pfn, P), if value then marked + {pfn as int} else marked)
    {
      hide SameOutside, DiskMarks, BufMarks, Window, Zeros;
      buf' := buf;
      var oldOffset, newOffset := Window(lastPfn, P), Window(pfn, P);
      ghost var n := WindowsApart(lastPfn, pfn, P);
      SameSelf(file, offsetBitmap, offsetBitmap + 2 * lenBitmap);
      while oldOffset < newOffset
        invariant newOffset == oldOffset + Edge(n, P) && |buf'| == P
        invariant Bitmaps(file, offsetBitmap, lenBitmap, buf', oldOffset, marked)
        invariant SameOutside(old(file), file, offsetBitmap, offsetBitmap + 2 * lenBitmap)
        invariant !value ==> oldOffset == newOffset ==> forall p | p in marked :: p < 8 * newOffset
        decreases n
      {
        OneFewer(n, P);
        ghost var before := file;
        FlushedOk(file, offsetBitmap, lenBitmap, buf', oldOffset, marked);
        NoneAhead(buf', oldOffset, marked);
        WriteBuffer(offsetBitmap + oldOffset, buf');
        WriteBuffer(offsetBitmap + lenBitmap + oldOffset, buf');
        OutsideOn(old(file), before, file, offsetBitmap, offsetBitmap + 2 * lenBitmap);
        buf' := Zeros(P);
        oldOffset := oldOffset + P;
        n := n - 1;
      }
      WindowFacts(pfn, P);
      NoneLeft(n, P);
      var i := pfn % (8 * P);
      StoredOk(buf', newOffset, marked, i, value);
      MoreMarks(file, offsetBitmap, lenBitmap, 8 * newOffset, marked, pfn);
      buf' := StoreBit(buf', i, value);
    }

    /** write_dump_bitmap: both bitmaps say which page frames exist. */
    method WriteDumpBitmap()
      requires Ready() && lenBitmap == BitmapLen(MaxMapnr(blocks), P)
      modifies this`file, this`numDumpable
      ensures numDumpable == |Flat(blocks)|
      ensures DiskMarks(file, offsetBitmap, lenBitmap, 8 * lenBitmap, Pfns(Flat(blocks)))
      ensures SameOutside(old(file), file, offsetBitmap, offsetBitmap + 2 * lenBitmap)
    {
      hide SameOutside, DiskMarks, BufMarks, Window, Zeros, Flat, Stands, Pfns, BitmapLen, Increasing;
      var lo, hi := offsetBitmap, offsetBitmap + 2 * lenBitmap;
      ghost var all := Flat(blocks);
      FlatFacts(blocks, P);
      var buf, k := Zeros(P), 0;
      var lastPfn: nat := 0;
      var block: Option<nat>, pfn: nat := None, 0;
      EmptyBitmaps(file, offsetBitmap, lenBitmap, blocks, P);
      SameSelf(file, lo, hi);
      while true
        invariant 0 <= k <= |all| && |buf| == P && Stands(blocks, block, pfn, k - 1)
        invariant Bitmaps(file, offsetBitmap, lenBitmap, buf, Window(lastPfn, P), Pfns(all[..k]))
        invariant lastPfn == if k == 0 then 0 else all[k - 1].pfn
        invariant SameOutside(old(file), file, lo, hi)
        decreases |all| - k
      {
        var more, block', pfn', data := GetNextPage(blocks, P, block, pfn, k - 1);
        if !more {
          break;
        }
        block, pfn := block', pfn';
        InOrder(all, k);
        BitmapFits(MaxMapnr(blocks), pfn, P);
        ghost var before := file;
        buf := SetDumpBitmap(lastPfn, pfn, true, buf, Pfns(all[..k]));
        OutsideOn(old(file), before, file, lo, hi);
        PrefixPfns(all, k);
        lastPfn := pfn;
        k := k + 1;
      }
      assert all[..|all|] == all;
      if k > 0 {
        BitmapFits(MaxMapnr(blocks), lastPfn, P);
        WindowFacts(lastPfn, P);
        ghost var before := file;
        buf := SetDumpBitmap(lastPfn, lastPfn + 8 * P, false, buf, Pfns(all));
        OutsideOn(old(file), before, file, lo, hi);
      }
      numDumpable := k;
    }

    /** write_dump_pages: descriptors and data of all pages, in order. */
    method WriteDumpPages()
      requires Ready() && numDumpable == |Flat(blocks)|
      modifies this`file
      ensures var off := offsetPage + DESC_SIZE * numDumpable;
        var a := AreasOf(codec, off, P, Flat(blocks));
        && Has(file, offsetPage, DescsBytes(a.descs, big)) && Has(file, off, a.data)
        && SameOutside(old(file), file, offsetPage, off + |a.data|)
    {
      hide SameOutside, Has, Flat, Stands, AreasOf, DescsBytes, Zeros, CacheOk;
      ghost var all := Flat(blocks);
      FlatFacts(blocks, P);
      var off := offsetPage + DESC_SIZE * numDumpable;
      var offsetData := off;
      var pageDesc := new DataCache(offsetPage, 4 * P);
      var pageData := new DataCache(off, 4 * P);
      EmptyCache(file, offsetPage);
      EmptyCache(file, off);
      file := pageData.Write(file, Zeros(P), false);
      EmptyCache(file, offsetPage);
      OutsideWider(old(file), file, off, off, offsetPage, off + P);
      StartAreas(codec, off, P, all, big);
      offsetData := offsetData + P;
      var k := 0;
      var block: Option<nat>, pfn: nat := None, 0;
      NotStarted(blocks);
      while true
        invariant 0 <= k <= |all| && Stands(blocks, block, pfn, k - 1)
        invariant pageDesc.Ok(file) && pageData.Ok(file)
        invariant var a := AreasOf(codec, off, P, all[..k]);
          pageDesc.all == DescsBytes(a.descs, big) && pageData.all == a.data && offsetData == off + |a.data| &&
          SameOutside(old(file), file, offsetPage, off + |a.data|)
        decreases |all| - k
      {
        var more, block', pfn', buf := GetNextPage(blocks, P, block, pfn, k - 1);
        if !more {
          break;
        }
        block, pfn := block', pfn';
        AreasStep(codec, off, P, all, k);
        offsetData := PutPage(pageDesc, pageData, off, offsetData, buf, AreasOf(codec, off, P, all[..k]), old(file));
        k := k + 1;
      }
      assert all[..|all|] == all;
      Sync(pageDesc, pageData, old(file));
    }

    /** One page of the loop in write_dump_pages. */
    method PutPage(pageDesc: DataCache, pageData: DataCache, off: nat, offsetData: nat, page: seq<Byte>, ghost a: Areas, ghost start: File)
      returns (offsetData': nat)
      requires |page| == P && DESC_SIZE <= 4 * P && pageDesc.bufSize == 4 * P == pageData.bufSize && pageDesc != pageData
      requires pageDesc.base == offsetPage && pageData.base == off && pageDesc.Ok(file) && pageData.Ok(file)
      requires pageDesc.all == DescsBytes(a.descs, big) && pageData.all == a.data && offsetData == off + |a.data|
      requires offsetPage + DESC_SIZE * |a.descs| + DESC_SIZE <= off
      requires SameOutside(start, file, offsetPage, off + |a.data|)
      modifies this`file, pageDesc, pageData
      ensures pageDesc.Ok(file) && pageData.Ok(file)
      ensures var a' := Added(codec, off, a, page);
        && pageDesc.all == DescsBytes(a'.descs, big) && pageData.all == a'.data && offsetData' == off + |a'.data|
        && SameOutside(start, file, offsetPage, off + |a'.data|)
    {
      hide SameOutside, Has, Zeros, CacheOk, Store, DescBytes, DescsBytes;
      offsetData' := offsetData;
      ghost var f0 := file;
      var pd := Desc(off, P, 0);
      if page != Zeros(P) {
        var s := Store(codec, page);
        StoredSmaller(codec, page);
        pd := Desc(offsetData, |s.bytes|, s.flags);
        file := pageData.Write(file, s.bytes, false);
        CacheKept(f0, file, off, off + |a.data|, pageDesc.base, pageDesc.offset, pageDesc.buf, pageDesc.all);
        offsetData' := offsetData + |s.bytes|;
        OutsideWider(f0, file, off, off + |a.data|, offsetPage, offsetData');
      } else {
        SameSelf(f0, offsetPage, offsetData');
      }
      OutsideWider(start, f0, offsetPage, off + |a.data|, offsetPage, offsetData');
      ghost var f1 := file;
      OutsideOn(start, f0, f1, offsetPage, offsetData');
      OneMoreDesc(a.descs, pd, big);
      file := pageDesc.Write(file, DescBytes(pd, big), false);
      ghost var end := offsetPage + DESC_SIZE * |a.descs|;
      CacheKept(f1, file, offsetPage, end, pageData.base, pageData.offset, pageData.buf, pageData.all);
      OutsideWider(f1, file, offsetPage, end, offsetPage, offsetData');
      OutsideOn(start, f1, file, offsetPage, offsetData');
    }

    /** The final write_cache calls that only flush. */
    method Sync(pageDesc: DataCache, pageData: DataCache, ghost start: File)
      requires pageDesc.Ok(file) && pageData.Ok(file) && pageDesc != pageData
      requires pageDesc.base == offsetPage && offsetPage + |pageDesc.all| <= pageData.base
      requires SameOutside(start, file, offsetPage, pageData.base + |pageData.all|)
      modifies this`file, pageDesc, pageData
      ensures Has(file, offsetPage, old(pageDesc.all)) && Has(file, pageData.base, old(pageData.all))
      ensures SameOutside(start, file, offsetPage, pageData.base + |old(pageData.all)|)
    {
      hide SameOutside, Has, CacheOk;
      ghost var descs, data, f0 := pageDesc.all, pageData.all, file;
      ghost var off, end := pageData.base, pageData.base + |pageData.all|;
      file := pageDesc.Write(file, [], true);
      assert pageDesc.all == descs;
      ghost var f1 := file;
      CacheKept(f0, f1, offsetPage, offsetPage + |descs|, off, pageData.offset, pageData.buf, pageData.all);
      file := pageData.Write(file, [], true);
      assert pageData.all == data;
      HasKept(f1, file, off, end, offsetPage, descs);
      OutsideWider(f0, f1, offsetPage, offsetPage + |descs|, offsetPage, end);
      OutsideWider(f1, file, off, end, offsetPage, end);
      OutsideOn(start, f0, f1, offsetPage, end);
      OutsideOn(start, f1, file, offsetPage, end);
    }

    /** create_kdump_vmcore: if the offsets fit their 32 bits, a reader of the
        file finds the headers, bitmaps that name exactly the guest's page
        frames, and every page at its rank. */
    method CreateVmcore()
      requires Ready() && Sound(codec)
      modifies this
      ensures Planned()
      ensures Fits() ==>
        && Has(file, 0, header) && Has(file, P, sub) && Has(file, P + |sub|, notes)
        && DiskMarks(file, offsetBitmap, lenBitmap, 8 * lenBitmap, Pfns(Flat(blocks)))
      ensures offsetPage + DESC_SIZE * |Flat(blocks)| + (|Flat(blocks)| + 1) * P < TWO64 ==>
        forall k | 0 <= k < |Flat(blocks)| :: PageOnDisk(file, offsetPage, codec, big, k, Flat(blocks)[k].data)
    {
      hide SameOutside, Has, Flat, AreasOf, DescsBytes, CacheOk, DiskMarks, PageOnDisk, Pfns, BitmapLen, Sound, Fits32,
           BitmapOffset, PageOffset;
      ghost var all := Flat(blocks);
      FlatFacts(blocks, P);
      WriteDumpHeader();
      ghost var f1 := file;
      WriteDumpBitmap();
      ghost var f2 := file;
      WriteDumpPages();
      ghost var off := offsetPage + DESC_SIZE * numDumpable;
      ghost var end := off + |AreasOf(codec, off, P, all).data|;
      if Fits() {
        HasKept(f1, f2, offsetBitmap, offsetPage, 0, header);
        HasKept(f1, f2, offsetBitmap, offsetPage, P, sub);
        HasKept(f1, f2, offsetBitmap, offsetPage, P + |sub|, notes);
        HasKept(f2, file, offsetPage, end, 0, header);
        HasKept(f2, file, offsetPage, end, P, sub);
        HasKept(f2, file, offsetPage, end, P + |sub|, notes);
        MarksKept(f2, file, offsetPage, end, offsetBitmap, lenBitmap, Pfns(all));
      }
      DataSize(codec, off, P, all);
      if off + (|all| + 1) * P < TWO64 {
        forall k | 0 <= k < |all|
          ensures PageOnDisk(file, offsetPage, codec, big, k, all[k].data)
        {
          PagesReadBack(file, offsetPage, codec, big, P, all, k);
        }
      }
    }
  }

  // ---- what the bitmaps mean

  /** The page frame lies in a guest block. */
  predicate InBlock(bs: seq<Block>, p: int) {
    exists i :: 0 <= i < |bs| && bs[i].pfn <= p < bs[i].pfn + |bs[i].pages|
  }

  lemma {:induction false} FramesAreBlocks(bs: seq<Block>, p: int)
    ensures p in Pfns(Flat(bs)) <==> InBlock(bs, p)
  {
    hide Pfns;
    if bs != [] {
      var n := |bs| - 1;
      var init, last := Flat(bs[..n]), PagesOf(bs[n]);
      FramesAreBlocks(bs[..n], p);
      if p in Pfns(Flat(bs)) {
        var k :| 0 <= k < |Flat(bs)| && Flat(bs)[k].pfn == p;
        if k < |init| {
          assert init[k].pfn == p;
          var i :| 0 <= i < n && bs[..n][i].pfn <= p < bs[..n][i].pfn + |bs[..n][i].pages|;
          assert bs[i].pfn <= p < bs[i].pfn + |bs[i].pages|;
        } else {
          assert last[k - |init|].pfn == p;
          assert bs[n].pfn <= p < bs[n].pfn + |bs[n].pages|;
        }
      }
      if InBlock(bs, p) {
        var i :| 0 <= i < |bs| && bs[i].pfn <= p < bs[i].pfn + |bs[i].pages|;
        FlatAt(bs, i, p - bs[i].pfn);
      }
    }
  }

  /** A reader that counts the set bits below a page frame gets the index of
      its descriptor. */
  lemma RankOnDisk(f: File, base: int, len: nat, bs: seq<Block>, P: nat, k: nat)
    requires BlocksOk(bs, P) && len == BitmapLen(MaxMapnr(bs), P) && k < |Flat(bs)|
    requires DiskMarks(f, base, len, 8 * len, Pfns(Flat(bs)))
    ensures |BitsBelow(f, base, Flat(bs)[k].pfn)| == k
  {
    var all := Flat(bs);
    FlatFacts(bs, P);
    BitmapFits(MaxMapnr(bs), all[k].pfn, P);
    RankIsIndex(all, k);
    hide Flat, DiskBit, BitmapLen, Increasing, Pfns, BitsBelow;
    SameBits(f, base, len, Pfns(all), all[k].pfn);
  }

  /** The set bits of a bitmap below a page frame. */
  ghost function BitsBelow(f: File, base: int, n: nat): set<int> {
    set p | 0 <= p < n && DiskBit(f, base, p)
  }

  lemma SameBits(f: File, base: int, len: nat, marked: set<int>, n: nat)
    requires DiskMarks(f, base, len, 8 * len, marked) && n <= 8 * len && forall p | p in marked :: p >= 0
    ensures BitsBelow(f, base, n) == set p | p in marked && p < n
  {
    hide DiskBit;
    forall p | 0 <= p < n
      ensures DiskBit(f, base, p) == (p in marked)
    {
      assert DiskBit(f, base, p) == DiskBit(f, base + len, p) == (p in marked);
    }
  }

  lemma MarksKept(f: File, f': File, lo: int, hi: int, base: int, len: nat, marked: set<int>)
    requires DiskMarks(f, base, len, 8 * len, marked) && SameOutside(f, f', lo, hi) && base + 2 * len <= lo
    ensures DiskMarks(f', base, len, 8 * len, marked)
  {
    hide DiskBit, SameOutside;
    forall i: nat | i < 8 * len
      ensures DiskBit(f', base, i) == DiskBit(f', base + len, i) == (i in marked)
    {
      assert DiskBit(f, base, i) == DiskBit(f, base + len, i) == (i in marked);
      BitKept(f, f', lo, hi, base, i);
      BitKept(f, f', lo, hi, base + len, i);
    }
  }

  lemma EmptyCache(f: File, base: nat)
    ensures CacheOk(f, base, base, [], [])
  {
  }

  lemma StoredSmaller(c: Codec, page: seq<Byte>)
    ensures |Store(c, page).bytes| <= |page|
  {
  }

  lemma OneMoreDesc(ds: seq<Desc>, d: Desc, big: bool)
    ensures DescsBytes(ds + [d], big) == DescsBytes(ds, big) + DescBytes(d, big)
  {
    assert (ds + [d])[..|ds|] == ds;
  }

  lemma StartAreas(c: Codec, off: nat, P: nat, all: seq<Page>, big: bool)
    ensures AreasOf(c, off, P, all[..0]) == Areas([], Zeros(P)) && DescsBytes([], big) == []
  {
  }

  lemma NotStarted(bs: seq<Block>)
    ensures Stands(bs, None, 0, -1)
  {
  }

  lemma EmptyBitmaps(f: File, base: int, len: nat, bs: seq<Block>, P: nat)
    requires P > 0
    ensures Bitmaps(f, base, len, Zeros(P), Window(0, P), Pfns(Flat(bs)[..0])) && Stands(bs, None, 0, -1)
  {
    WindowFacts(0, P);
    hide Flat;
    assert Pfns(Flat(bs)[..0]) == {};
    forall i: nat | i < 8 * P
      ensures !BufBit(Zeros(P), i)
    {
      ZeroBits(P, i);
    }
    hide BufBit, Zeros, Window;
  }

  lemma InOrder(all: seq<Page>, k: nat)
    requires Increasing(all) && k < |all|
    ensures k > 0 ==> all[k - 1].pfn <= all[k].pfn
  {
  }

  lemma PrefixPfns(all: seq<Page>, k: nat)
    requires k < |all|
    ensures Pfns(all[..k + 1]) == Pfns(all[..k]) + {all[k].pfn as int}
  {
    PfnsStep(all[..k + 1]);
    assert all[..k + 1][..k] == all[..k];
  }

  lemma ReadyFacts(bs: seq<Block>, P: nat)
    requires BlocksOk(bs, P)
    ensures P > 0 && bs != []
  {
  }

  lemma OneFewer(n: nat, P: nat)
    requires Edge(n, P) > 0
    ensures n > 0 && Edge(n, P) == P + Edge(n - 1, P)
  {
  }

  lemma NoneLeft(n: nat, P: nat)
    requires P > 0 && Edge(n, P) <= 0
    ensures n == 0
  {
  }

  lemma NoneAhead(buf: seq<Byte>, at: nat, marked: set<int>)
    requires BufMarks(buf, at, marked)
    ensures forall p | p in marked :: p < 8 * (at + |buf|)
  {
  }
}
