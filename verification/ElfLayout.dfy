/** The memory part of an ELF core dump: which bytes of the guest's physical
    blocks are written, where program headers say they are, and how many bytes
    are announced. */
module ElfLayout {
  import opened Common

  /** A GuestPhysBlock and the memory behind it. */
  datatype Block = Block(start: nat, end: nat, data: seq<Byte>)

  datatype Filter = All | Window(begin: nat, length: nat)

  predicate BlockOk(b: Block) { b.start < b.end && |b.data| == b.end - b.start }

  predicate BlocksOk(bs: seq<Block>) { forall i | 0 <= i < |bs| :: BlockOk(bs[i]) }

  /** The part of a block inside the window, as addresses. */
  function Lo(f: Filter, b: Block): nat { if f.All? then b.start else Max(b.start, f.begin) }

  function Hi(f: Filter, b: Block): nat {
    if f.All? then b.end else Max(Lo(f, b), Min(b.end, f.begin + f.length))
  }

  function Part(f: Filter, b: Block): seq<Byte>
    requires BlockOk(b)
  {
    if Lo(f, b) < Hi(f, b) then b.data[Lo(f, b) - b.start..Hi(f, b) - b.start] else []
  }

  lemma PartSize(f: Filter, b: Block)
    requires BlockOk(b)
    ensures |Part(f, b)| == Hi(f, b) - Lo(f, b)
  {
  }

  /** All parts in list order: the memory area of the dump. */
  function Image(f: Filter, bs: seq<Block>): seq<Byte>
    requires BlocksOk(bs)
  {
    if bs == [] then [] else Image(f, bs[..|bs| - 1]) + Part(f, bs[|bs| - 1])
  }

  lemma ImageStep(f: Filter, bs: seq<Block>, i: nat)
    requires BlocksOk(bs) && i < |bs|
    ensures BlocksOk(bs[..i]) && BlocksOk(bs[..i + 1]) && Image(f, bs[..i + 1]) == Image(f, bs[..i]) + Part(f, bs[i])
  {
    assert bs[..i + 1][..i] == bs[..i];
  }

  lemma {:induction false} ImagePrefix(f: Filter, bs: seq<Block>, i: nat)
    requires BlocksOk(bs) && i <= |bs|
    ensures BlocksOk(bs[..i]) && Image(f, bs[..i]) <= Image(f, bs)
    decreases |bs| - i
  {
    if i == |bs| {
      assert bs[..i] == bs;
    } else {
      ImagePrefix(f, bs, i + 1);
      ImageStep(f, bs, i);
    }
  }

  /** The block's part holds the address. */
  predicate Holds(f: Filter, b: Block, p: nat) { Lo(f, b) <= p < Hi(f, b) }

  /** The address is to be dumped: in the block, and in the window if there is
      one. */
  predicate Wanted(f: Filter, b: Block, p: int) {
    b.start <= p < b.end && (f.Window? ==> f.begin <= p < f.begin + f.length)
  }

  lemma HoldsIff(f: Filter, b: Block, p: nat)
    requires BlockOk(b)
    ensures Holds(f, b, p) <==> Wanted(f, b, p)
  {
  }

  /** A block's part is as long as there are wanted addresses. */
  lemma PartCounts(f: Filter, b: Block)
    requires BlockOk(b)
    ensures |Part(f, b)| == |set p | b.start <= p < b.end && Wanted(f, b, p)|
  {
    PartSize(f, b);
    RangeSize(Lo(f, b), Hi(f, b));
    var wanted := set p | b.start <= p < b.end && Wanted(f, b, p);
    forall p
      ensures p in wanted <==> Lo(f, b) <= p < Hi(f, b)
    {
      if p >= 0 {
        HoldsIff(f, b, p);
      }
    }
    hide Part, Lo, Hi, Wanted, Range;
    assert wanted == Range(Lo(f, b), Hi(f, b));
  }

  /** It consists of the wanted bytes, in order of their addresses. */
  lemma PartBytes(f: Filter, b: Block, k: nat)
    requires BlockOk(b) && k < |Part(f, b)|
    ensures Wanted(f, b, Lo(f, b) + k) && Part(f, b)[k] == b.data[Lo(f, b) + k - b.start]
  {
  }

  /** The n bytes of the image at `at` are those of block b at address p, as
      many as asked for unless the block ends before. */
  predicate BytesAt(f: Filter, image: seq<Byte>, b: Block, p: nat, asked: nat, at: int, n: nat) {
    && BlockOk(b) && Holds(f, b, p) && n == Min(asked, Hi(f, b) - p) && 0 <= at && at + n <= |image|
    && image[at..at + n] == b.data[p - b.start..p - b.start + n]
  }

  lemma SliceOfSlice(s: seq<Byte>, a: nat, b: nat, c: nat, d: nat)
    requires a <= b <= |s| && c <= d <= b - a
    ensures s[a..b][c..d] == s[a + c..a + d]
  {
    var x, y := s[a..b][c..d], s[a + c..a + d];
    assert |x| == |y| && forall k | 0 <= k < |x| :: x[k] == s[a + c + k] == y[k];
  }

  lemma PartSlice(f: Filter, b: Block, p: nat, n: nat)
    requires BlockOk(b) && Holds(f, b, p) && p + n <= Hi(f, b)
    ensures var skip := p - Lo(f, b); skip + n <= |Part(f, b)| && Part(f, b)[skip..skip + n] == b.data[p - b.start..p - b.start + n]
  {
    var skip := p - Lo(f, b);
    SliceOfSlice(b.data, Lo(f, b) - b.start, Hi(f, b) - b.start, skip, skip + n);
  }

  lemma PrefixSlice(a: seq<Byte>, b: seq<Byte>, whole: seq<Byte>, skip: nat, n: nat)
    requires a + b <= whole && skip + n <= |b|
    ensures |a| + skip + n <= |whole| && whole[|a| + skip..|a| + skip + n] == b[skip..skip + n]
  {
    assert whole[..|a + b|] == a + b;
    assert whole[|a| + skip..|a| + skip + n] == (a + b)[|a| + skip..|a| + skip + n];
  }

  lemma PlacedPart(f: Filter, before: seq<Byte>, b: Block, whole: seq<Byte>, p: nat, asked: nat)
    requires BlockOk(b) && before + Part(f, b) <= whole && Holds(f, b, p)
    ensures BytesAt(f, whole, b, p, asked, |before| + (p - Lo(f, b)), Min(asked, Hi(f, b) - p))
  {
    var n := Min(asked, Hi(f, b) - p);
    PartSlice(f, b, p, n);
    hide Part;
    PrefixSlice(before, Part(f, b), whole, p - Lo(f, b), n);
  }

  lemma PartPlaced(f: Filter, bs: seq<Block>, i: nat)
    requires BlocksOk(bs) && i < |bs|
    ensures BlocksOk(bs[..i]) && Image(f, bs[..i]) + Part(f, bs[i]) <= Image(f, bs)
  {
    hide Image, Part;
    ImageStep(f, bs, i);
    ImagePrefix(f, bs, i + 1);
  }

  /** The bytes of block i from p on are where the image puts them. */
  lemma BytesInImage(f: Filter, bs: seq<Block>, i: nat, p: nat, asked: nat)
    requires BlocksOk(bs) && i < |bs| && Holds(f, bs[i], p)
    ensures BlocksOk(bs[..i])
    ensures var at := |Image(f, bs[..i])| + (p - Lo(f, bs[i]));
      BytesAt(f, Image(f, bs), bs[i], p, asked, at, Min(asked, Hi(f, bs[i]) - p))
  {
    hide Image, Part, BytesAt;
    PartPlaced(f, bs, i);
    PlacedPart(f, Image(f, bs[..i]), bs[i], Image(f, bs), p, asked);
  }

  class Dump {
    const blocks: seq<Block>        // guest_phys_blocks
    const filter: Filter
    const memoryOffset: nat
    const pageSize: nat
    var nextBlock: nat
    var start: nat
    var written: seq<Byte>          // the memory area of the file
    var writtenSize: nat

    ghost predicate Valid() {
      BlocksOk(blocks) && blocks != [] && pageSize > 0
    }

    constructor (blocks: seq<Block>, filter: Filter, memoryOffset: nat, pageSize: nat)
      requires BlocksOk(blocks) && blocks != [] && pageSize > 0
      ensures Valid() && written == [] && writtenSize == 0
      ensures this.blocks == blocks && this.filter == filter && this.memoryOffset == memoryOffset && this.pageSize == pageSize
    {
      this.blocks, this.filter, this.memoryOffset, this.pageSize := blocks, filter, memoryOffset, pageSize;
      nextBlock, start, written, writtenSize := 0, 0, [], 0;
    }

    /** The block has nothing in the window. */
    predicate OutOfRange(b: Block) {
      filter.Window? && (b.start >= filter.begin + filter.length || b.end <= filter.begin)
    }

    lemma OutOfRangeIsEmpty(b: Block)
      requires BlockOk(b) && OutOfRange(b)
      ensures Part(filter, b) == [] && Lo(filter, b) == Hi(filter, b)
    {
    }

    /** get_start_block; None where it returns -1 */
    method GetStartBlock() returns (r: Option<nat>)
      requires Valid()
      modifies this`nextBlock, this`start
      ensures r.None? <==> forall i | 0 <= i < |blocks| :: OutOfRange(blocks[i])
      ensures r.Some? ==> Ready(nextBlock) && r.value == start && Image(filter, blocks[..nextBlock]) == []
    {
      hide Part;
      if filter.All? {
        nextBlock, start := 0, 0;
        assert !OutOfRange(blocks[0]);
        return Some(0);
      }
      for i := 0 to |blocks|
        invariant BlocksOk(blocks[..i]) && Image(filter, blocks[..i]) == []
        invariant forall j | 0 <= j < i :: OutOfRange(blocks[j])
      {
        ImageStep(filter, blocks, i);
        if OutOfRange(blocks[i]) {
          OutOfRangeIsEmpty(blocks[i]);
          continue;
        }
        nextBlock := i;
        start := if filter.begin > blocks[i].start then filter.begin - blocks[i].start else 0;
        return Some(start);
      }
      return None;
    }

    /** next_block and start are set for block i. */
    ghost predicate Ready(i: nat)
      reads this
    {
      i < |blocks| && nextBlock == i && !OutOfRange(blocks[i]) && start == Lo(filter, blocks[i]) - blocks[i].start
    }

    /** get_next_block; false when there is no more block */
    method GetNextBlock() returns (more: bool)
      requires Valid() && nextBlock < |blocks|
      modifies this`nextBlock, this`start
      ensures more ==> old(nextBlock) < nextBlock && Ready(nextBlock)
      ensures Image(filter, blocks[..if more then nextBlock else |blocks|]) == Image(filter, blocks[..old(nextBlock) + 1])
    {
      hide Part;
      var i := nextBlock + 1;
      ImageStep(filter, blocks, nextBlock);
      while i < |blocks|
        invariant old(nextBlock) < i <= |blocks| && BlocksOk(blocks[..i])
        invariant Image(filter, blocks[..i]) == Image(filter, blocks[..old(nextBlock) + 1])
      {
        start, nextBlock := 0, i;
        if OutOfRange(blocks[i]) {
          ImageStep(filter, blocks, i);
          OutOfRangeIsEmpty(blocks[i]);
          i := i + 1;
          continue;
        }
        if filter.Window? && filter.begin > blocks[i].start {
          start := filter.begin - blocks[i].start;
        }
        return true;
      }
      return false;
    }

    method WriteData(data: seq<Byte>)
      modifies this`written, this`writtenSize
      ensures written == old(written) + data && writtenSize == old(writtenSize) + |data|
    {
      written := written + data;
      writtenSize := writtenSize + |data|;
    }

    /** write_memory: a page at a time, then what is left */
    method WriteMemory(b: Block, first: nat, size: nat)
      requires pageSize > 0 && first + size <= |b.data|
      modifies this`written, this`writtenSize
      ensures written == old(written) + b.data[first..first + size] && writtenSize == old(writtenSize) + size
    {
      var i, done := 0, 0;
      PageLoop(0, size, pageSize);
      while i < size / pageSize
        invariant 0 <= i <= size / pageSize && done == i * pageSize <= size
        invariant written == old(written) + b.data[first..first + done] && writtenSize == old(writtenSize) + done
      {
        PageLoop(i, size, pageSize);
        WriteData(b.data[first + done..first + done + pageSize]);
        assert b.data[first..first + done] + b.data[first + done..first + done + pageSize] == b.data[first..first + done + pageSize];
        i, done := i + 1, done + pageSize;
      }
      PageLoop(i, size, pageSize);
      if size % pageSize != 0 {
        WriteData(b.data[first + done..first + done + size % pageSize]);
        assert b.data[first..first + done] + b.data[first + done..first + size] == b.data[first..first + size];
      }
    }

    /** dump_iterate: the whole image is written. */
    method DumpIterate()
      requires Valid() && Ready(nextBlock) && Image(filter, blocks[..nextBlock]) == []
      modifies this
      ensures written == old(written) + Image(filter, blocks) && writtenSize == old(writtenSize) + |Image(filter, blocks)|
    {
      hide Image, Part;
      var more := true;
      ghost var done: seq<Byte> := [];
      while more
        invariant more ==> Ready(nextBlock) && Image(filter, blocks[..nextBlock]) == done
        invariant !more ==> Image(filter, blocks) == done
        invariant written == old(written) + done && writtenSize == old(writtenSize) + |done|
        decreases if more then 1 + |blocks| - nextBlock else 0
      {
        var b := blocks[nextBlock];
        var size := b.end - b.start;
        if filter.Window? {
          size := size - start;
          if filter.begin + filter.length < b.end {
            size := size - (b.end - (filter.begin + filter.length));
          }
        }
        ReadyPart(size);
        ImageStep(filter, blocks, nextBlock);
        WriteMemory(b, start, size);
        done := done + Part(filter, b);
        more := GetNextBlock();
        assert blocks[..|blocks|] == blocks;
      }
    }

    /** The size computed for the block at hand is that of its part. */
    lemma ReadyPart(size: int)
      requires Valid() && Ready(nextBlock)
      requires var b := blocks[nextBlock];
        size == b.end - b.start - (if filter.Window? then start else 0) -
          (if filter.Window? && filter.begin + filter.length < b.end then b.end - (filter.begin + filter.length) else 0)
      ensures var b := blocks[nextBlock];
        BlockOk(b) && 0 <= size && start + size <= |b.data| && b.data[start..start + size] == Part(filter, b)
    {
      var b := blocks[nextBlock];
      assert BlockOk(b);
      PartSize(filter, b);
    }

    /** get_offset_range: None is the offset -1.  The range found holds exactly
        the bytes of that address, and stays inside its block. */
    method GetOffsetRange(physAddr: nat, mappingLength: nat) returns (pOffset: Option<nat>, pFilesz: nat)
      requires Valid()
      ensures pOffset.None? <==> forall i | 0 <= i < |blocks| :: !Holds(filter, blocks[i], physAddr)
      ensures pOffset.None? ==> pFilesz == 0
      ensures pOffset.Some? ==>
        var image, at := Image(filter, blocks), pOffset.value - memoryOffset;
        exists i :: 0 <= i < |blocks| && BytesAt(filter, image, blocks[i], physAddr, mappingLength, at, pFilesz)
    {
      hide Image, Part, BytesAt;
      if filter.Window? && (physAddr < filter.begin || physAddr >= filter.begin + filter.length) {
        return None, 0;
      }
      var offset := memoryOffset;
      EmptyImage(filter, blocks);
      for i := 0 to |blocks|
        invariant BlocksOk(blocks[..i]) && offset == memoryOffset + |Image(filter, blocks[..i])|
        invariant forall j | 0 <= j < i :: !Holds(filter, blocks[j], physAddr)
      {
        var b := blocks[i];
        assert BlockOk(b);
        ImageStep(filter, blocks, i);
        PartSize(filter, b);
        var first, sizeInBlock := b.start, b.end - b.start;
        if filter.Window? {
          if OutOfRange(b) {
            OutOfRangeIsEmpty(b);
            continue;
          }
          first := if filter.begin <= b.start then b.start else filter.begin;
          sizeInBlock := b.end - first;
          if filter.begin + filter.length < b.end {
            sizeInBlock := sizeInBlock - (b.end - (filter.begin + filter.length));
          }
        }
        assert first == Lo(filter, b) && first + sizeInBlock == Hi(filter, b);
        if first <= physAddr < first + sizeInBlock {
          var filesz := if physAddr + mappingLength <= first + sizeInBlock then mappingLength else sizeInBlock - (physAddr - first);
          BytesInImage(filter, blocks, i, physAddr, mappingLength);
          return Some(physAddr - first + offset), filesz;
        }
        offset := offset + sizeInBlock;
      }
      return None, 0;
    }

    /** dump_calculate_size: the announced total is what is written. */
    method DumpCalculateSize() returns (total: int)
      requires Valid()
      ensures total == |Image(filter, blocks)|
    {
      hide Image, Part;
      total := 0;
      EmptyImage(filter, blocks);
      for i := 0 to |blocks|
        invariant BlocksOk(blocks[..i]) && total == |Image(filter, blocks[..i])|
      {
        var b := blocks[i];
        assert BlockOk(b);
        ImageStep(filter, blocks, i);
        PartSize(filter, b);
        var size := b.end - b.start;
        if filter.Window? {
          size := Min(filter.begin + filter.length, b.end) - Max(filter.begin, b.start);
          size := if size > 0 then size else 0;
        }
        total := total + size;
      }
      assert blocks[..|blocks|] == blocks;
    }
  }

  lemma EmptyImage(f: Filter, bs: seq<Block>)
    ensures BlocksOk(bs[..0]) && Image(f, bs[..0]) == []
  {
  }

  lemma PageLoop(i: nat, size: nat, page: nat)
    requires page > 0 && i <= size / page
    ensures (i + 1) * page == i * page + page && i * page <= size
    ensures i < size / page ==> i * page + page <= size
    ensures i == size / page ==> size == i * page + size % page
  {
    var n := size / page;
    assert size == page * n + size % page;
    assert page * (n - i) == page * n - page * i;
    assert n - i >= 0 ==> page * (n - i) >= 0;
    assert n - i >= 1 ==> page * (n - i) >= page;
  }
}
