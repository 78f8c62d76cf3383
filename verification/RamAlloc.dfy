/** The RAM block list: best-fit placement, insertion in order of size,
    removal, and the lookup with its most-recently-used block. */
module RamAlloc {
  import opened Common

  /** RAM_ADDR_MAX */
  const MAX: nat := 0xffff_ffff_ffff_ffff

  /** host is the address of the block's memory. */
  datatype Block = Block(offset: nat, length: nat, host: int)

  function End(b: Block): nat { b.offset + b.length }

  predicate Apart(a: Block, b: Block) { End(a) <= b.offset || End(b) <= a.offset }

  predicate BlockOk(b: Block, page: nat) {
    page > 0 && b.length > 0 && Multiple(b.offset, page) && Multiple(b.length, page) && End(b) <= MAX
  }

  predicate Disjoint(blocks: seq<Block>) {
    forall i, j | 0 <= i < j < |blocks| :: Apart(blocks[i], blocks[j])
  }

  predicate Sorted(blocks: seq<Block>) {
    forall i, j | 0 <= i < j < |blocks| :: blocks[i].length >= blocks[j].length
  }

  predicate ListOk(blocks: seq<Block>, page: nat) {
    (forall i | 0 <= i < |blocks| :: BlockOk(blocks[i], page)) && Disjoint(blocks) && Sorted(blocks)
  }

  // ---- gaps

  /** The lowest start of a block at or above an address; RAM_ADDR_MAX if none. */
  function NextStart(blocks: seq<Block>, at: nat): (n: nat)
    ensures n == MAX || exists i :: 0 <= i < |blocks| && blocks[i].offset == n >= at
    ensures n <= MAX && forall i | 0 <= i < |blocks| && blocks[i].offset >= at :: n <= blocks[i].offset
  {
    if blocks == [] then MAX
    else
      var last := blocks[|blocks| - 1];
      var n := NextStart(blocks[..|blocks| - 1], at);
      if last.offset >= at then Min(n, last.offset) else n
  }

  /** The room between the end of block i and whatever follows it. */
  function Gap(blocks: seq<Block>, i: nat): int
    requires i < |blocks|
  {
    NextStart(blocks, End(blocks[i])) - End(blocks[i])
  }

  /** A smallest gap after some block that is large enough. */
  predicate BestGap(blocks: seq<Block>, size: nat, i: int) {
    0 <= i < |blocks| && Gap(blocks, i) >= size && forall j | 0 <= j < |blocks| && Gap(blocks, j) >= size :: Gap(blocks, i) <= Gap(blocks, j)
  }

  /** Nothing lies in the gap after a block. */
  lemma GapIsFree(blocks: seq<Block>, page: nat, i: nat, size: nat, host: int)
    requires ListOk(blocks, page) && i < |blocks| && Gap(blocks, i) >= size && size > 0
    ensures var b := Block(End(blocks[i]), size, host);
      End(b) <= MAX && forall j | 0 <= j < |blocks| :: Apart(b, blocks[j])
  {
    var e := End(blocks[i]);
    forall j | 0 <= j < |blocks|
      ensures Apart(Block(e, size, host), blocks[j])
    {
      if j < i {
        assert Apart(blocks[j], blocks[i]);
      } else if i < j {
        assert Apart(blocks[i], blocks[j]);
      }
    }
  }

  // ---- the list

  /** Where a block of that length goes: before the first shorter one. */
  function Place(blocks: seq<Block>, length: nat, i: nat): (k: nat)
    requires i <= |blocks|
    ensures i <= k <= |blocks| && (k < |blocks| ==> blocks[k].length < length)
    ensures forall j | i <= j < k :: blocks[j].length >= length
    decreases |blocks| - i
  {
    if i == |blocks| || blocks[i].length < length then i else Place(blocks, length, i + 1)
  }

  function Inserted(blocks: seq<Block>, b: Block): seq<Block> {
    var k := Place(blocks, b.length, 0);
    blocks[..k] + [b] + blocks[k..]
  }

  /** r is the list with b put in at k. */
  predicate PutAt(blocks: seq<Block>, b: Block, k: nat, r: seq<Block>) {
    k <= |blocks| && r == blocks[..k] + [b] + blocks[k..]
  }

  lemma PutDisjoint(blocks: seq<Block>, b: Block, k: nat, r: seq<Block>)
    requires PutAt(blocks, b, k, r) && Disjoint(blocks) && forall j | 0 <= j < |blocks| :: Apart(b, blocks[j])
    ensures Disjoint(r)
  {
    PutCounts(blocks, b, k, r);
    hide PutAt;
    forall i, j | 0 <= i < j < |r|
      ensures Apart(r[i], r[j])
    {
      PutElement(blocks, b, k, r, i);
      PutElement(blocks, b, k, r, j);
    }
  }

  lemma PutElement(blocks: seq<Block>, b: Block, k: nat, r: seq<Block>, i: nat)
    requires PutAt(blocks, b, k, r) && i < |r|
    ensures i < k ==> r[i] == blocks[i]
    ensures i == k ==> r[i] == b
    ensures i > k ==> r[i] == blocks[i - 1]
  {
  }

  lemma PutSorted(blocks: seq<Block>, b: Block, k: nat, r: seq<Block>)
    requires PutAt(blocks, b, k, r) && Sorted(blocks)
    requires (k < |blocks| ==> blocks[k].length < b.length) && forall j | 0 <= j < k :: blocks[j].length >= b.length
    ensures Sorted(r)
  {
    PutCounts(blocks, b, k, r);
    hide PutAt;
    forall i, j | 0 <= i < j < |r|
      ensures r[i].length >= r[j].length
    {
      PutElement(blocks, b, k, r, i);
      PutElement(blocks, b, k, r, j);
      assert i == k && j - 1 > k ==> blocks[k].length >= blocks[j - 1].length;
    }
  }

  lemma PutCounts(blocks: seq<Block>, b: Block, k: nat, r: seq<Block>)
    requires PutAt(blocks, b, k, r)
    ensures multiset(r) == multiset(blocks) + multiset{b} && |r| == |blocks| + 1
  {
    assert blocks == blocks[..k] + blocks[k..];
  }

  lemma InsertedOk(blocks: seq<Block>, page: nat, b: Block)
    requires ListOk(blocks, page) && BlockOk(b, page) && forall j | 0 <= j < |blocks| :: Apart(b, blocks[j])
    ensures ListOk(Inserted(blocks, b), page)
    ensures multiset(Inserted(blocks, b)) == multiset(blocks) + multiset{b}
  {
    var k := Place(blocks, b.length, 0);
    var r := Inserted(blocks, b);
    PutCounts(blocks, b, k, r);
    hide BlockOk, Inserted, Place, Apart, PutAt;
    PutDisjoint(blocks, b, k, r);
    PutSorted(blocks, b, k, r);
    hide Disjoint, Sorted;
    forall i | 0 <= i < |r|
      ensures BlockOk(r[i], page)
    {
      PutElement(blocks, b, k, r, i);
    }
  }

  function Removed(blocks: seq<Block>, k: nat): seq<Block>
    requires k < |blocks|
  {
    blocks[..k] + blocks[k + 1..]
  }

  lemma RemovedOk(blocks: seq<Block>, page: nat, k: nat)
    requires ListOk(blocks, page) && k < |blocks|
    ensures ListOk(Removed(blocks, k), page)
    ensures multiset(Removed(blocks, k)) == multiset(blocks) - multiset{blocks[k]}
  {
    var r := Removed(blocks, k);
    assert blocks == blocks[..k] + [blocks[k]] + blocks[k + 1..];
    assert forall j | 0 <= j < |r| :: r[j] == if j < k then blocks[j] else blocks[j + 1];
    hide BlockOk, Removed, Apart;
  }

  // ---- lookups

  /** addr - offset < length, in unsigned arithmetic */
  predicate Within(b: Block, addr: nat) { (addr - b.offset) % TWO64 < b.length }

  lemma WithinMeans(b: Block, addr: nat)
    requires End(b) <= MAX && addr <= MAX
    ensures Within(b, addr) <==> b.offset <= addr < End(b)
  {
  }

  /** qemu_safe_ram_ptr: the host address behind a RAM address */
  function RamPtr(blocks: seq<Block>, addr: nat): (r: Option<int>) {
    if blocks == [] then None
    else if Within(blocks[0], addr) then Some(blocks[0].host + (addr - blocks[0].offset))
    else RamPtr(blocks[1..], addr)
  }

  /** Any block that contains the address gives the answer of the search. */
  lemma {:induction false} AnyBlockAnswers(blocks: seq<Block>, page: nat, k: nat, addr: nat)
    requires ListOk(blocks, page) && addr <= MAX && k < |blocks| && Within(blocks[k], addr)
    ensures RamPtr(blocks, addr) == Some(blocks[k].host + (addr - blocks[k].offset))
  {
    hide Within, Multiple;
    if k > 0 {
      assert Apart(blocks[0], blocks[k]) && BlockOk(blocks[0], page) && BlockOk(blocks[k], page);
      WithinMeans(blocks[0], addr);
      WithinMeans(blocks[k], addr);
      assert ListOk(blocks[1..], page) by {
        var r := blocks[1..];
        assert forall j | 0 <= j < |r| :: r[j] == blocks[j + 1];
      }
      AnyBlockAnswers(blocks[1..], page, k - 1, addr);
    }
  }

  lemma WithinBlock(blocks: seq<Block>, page: nat, k: nat, addr: nat)
    requires ListOk(blocks, page) && k < |blocks| && addr <= MAX
    ensures Within(blocks[k], addr) <==> blocks[k].offset <= addr < blocks[k].offset + blocks[k].length
  {
    hide Disjoint, Sorted, Multiple;
    assert BlockOk(blocks[k], page);
    WithinMeans(blocks[k], addr);
  }

  /** The host address behind a RAM address is the one in the block that
      contains it; there is none exactly when no block does. */
  lemma RamPtrMeans(blocks: seq<Block>, page: nat, addr: nat)
    requires ListOk(blocks, page) && addr <= MAX
    ensures forall i | 0 <= i < |blocks| && blocks[i].offset <= addr < blocks[i].offset + blocks[i].length ::
      RamPtr(blocks, addr) == Some(blocks[i].host + (addr - blocks[i].offset))
    ensures RamPtr(blocks, addr).Some? ==> exists i :: 0 <= i < |blocks| && blocks[i].offset <= addr < blocks[i].offset + blocks[i].length
  {
    hide Within, Multiple, RamPtr, Disjoint, Sorted;
    forall i | 0 <= i < |blocks|
      ensures Within(blocks[i], addr) <==> blocks[i].offset <= addr < blocks[i].offset + blocks[i].length
    {
      assert BlockOk(blocks[i], page);
      WithinMeans(blocks[i], addr);
    }
    forall i | 0 <= i < |blocks| && Within(blocks[i], addr)
      ensures RamPtr(blocks, addr) == Some(blocks[i].host + (addr - blocks[i].offset))
    {
      AnyBlockAnswers(blocks, page, i, addr);
    }
    if RamPtr(blocks, addr).Some? {
      var i := SomeBlock(blocks, addr);
    }
  }

  lemma {:induction false} SomeBlock(blocks: seq<Block>, addr: nat) returns (i: nat)
    requires RamPtr(blocks, addr).Some?
    ensures i < |blocks| && Within(blocks[i], addr)
  {
    hide Within;
    i := 0;
    if !Within(blocks[0], addr) {
      i := SomeBlock(blocks[1..], addr);
      i := i + 1;
    }
  }

  class RamList {
    const page: nat                 // TARGET_PAGE_SIZE
    var blocks: seq<Block>
    var mru: Option<Block>          // mru_block
    var version: int

    ghost predicate Valid()
      reads this
    {
      page > 0 && ListOk(blocks, page) && (mru.Some? ==> mru.value in blocks)
    }

    constructor (page: nat)
      requires page > 0
      ensures Valid() && blocks == [] && this.page == page
    {
      this.page, blocks, mru, version := page, [], None, 0;
    }

    /** The inner loop of find_ram_offset. */
    method FindNext(end: nat) returns (next: nat)
      ensures next == NextStart(blocks, end)
    {
      next := MAX;
      for i := 0 to |blocks|
        invariant next == NextStart(blocks[..i], end)
      {
        assert blocks[..i + 1][..i] == blocks[..i];
        if blocks[i].offset >= end {
          next := Min(next, blocks[i].offset);
        }
      }
      assert blocks[..|blocks|] == blocks;
    }

    method FindRamOffset(size: nat) returns (r: Option<nat>)
      requires Valid() && size > 0
      ensures blocks == [] ==> r == Some(0)
      ensures blocks != [] ==>
        if r.None? then forall i | 0 <= i < |blocks| :: Gap(blocks, i) < size
        else exists i :: BestGap(blocks, size, i) && r.value == End(blocks[i])
    {
      hide NextStart, Multiple, Disjoint, Sorted;
      if blocks == [] {
        return Some(0);
      }
      var offset, mingap := MAX, MAX;
      ghost var best := 0;
      for i := 0 to |blocks|
        invariant forall j | 0 <= j < i && Gap(blocks, j) >= size :: mingap <= Gap(blocks, j)
        invariant if offset == MAX then mingap == MAX && forall j | 0 <= j < i :: Gap(blocks, j) < size
          else 0 <= best < i && offset == End(blocks[best]) && mingap == Gap(blocks, best) >= size
      {
        var end := End(blocks[i]);
        var next := FindNext(end);
        assert next - end == Gap(blocks, i);
        assert BlockOk(blocks[i], page);
        if next - end >= size && next - end < mingap {
          offset, mingap := end, next - end;
          best := i;
        }
      }
      if offset == MAX {
        return None;
      }
      assert BestGap(blocks, size, best);
      return Some(offset);
    }

    /** qemu_ram_alloc_from_ptr; None where the source aborts */
    method Alloc(size: nat, host: int) returns (r: Option<nat>)
      requires Valid() && size > 0 && RoundUp(size, page) <= MAX
      modifies this
      ensures Valid()
      ensures r.None? ==> blocks == old(blocks) && old(blocks) != [] && forall i | 0 <= i < |blocks| :: Gap(blocks, i) < RoundUp(size, page)
      ensures r.Some? ==>
        var b := Block(r.value, RoundUp(size, page), host);
        && multiset(blocks) == multiset(old(blocks)) + multiset{b} && mru == None && version == old(version) + 1
        && (if old(blocks) == [] then r.value == 0
            else exists i :: BestGap(old(blocks), b.length, i) && r.value == End(old(blocks)[i]))
    {
      var length := RoundUp(size, page);
      Rounding(size, page);
      r := FindRamOffset(length);
      if r.None? {
        return;
      }
      var b := Block(r.value, length, host);
      Placed(b);
      InsertedOk(blocks, page, b);
      hide ListOk, RoundUp, BestGap, BlockOk, Gap;
      var k := 0;
      while k < |blocks| && !(blocks[k].length < length)
        invariant 0 <= k <= |blocks| && Place(blocks, length, 0) == Place(blocks, length, k)
      {
        k := k + 1;
      }
      blocks := blocks[..k] + [b] + blocks[k..];
      mru := None;
      version := version + 1;
    }

    /** The block at the offset found is in order and overlaps no other. */
    lemma Placed(b: Block)
      requires Valid() && b.length > 0 && Multiple(b.length, page) && b.length <= MAX
      requires if blocks == [] then b.offset == 0 else exists i :: BestGap(blocks, b.length, i) && b.offset == End(blocks[i])
      ensures BlockOk(b, page) && forall j | 0 <= j < |blocks| :: Apart(b, blocks[j])
    {
      if blocks == [] {
        assert Multiple(0, page);
      } else {
        var i :| BestGap(blocks, b.length, i) && b.offset == End(blocks[i]);
        hide Multiple, Gap;
        GapIsFree(blocks, page, i, b.length, b.host);
        MultiplesAdd(blocks[i].offset, blocks[i].length, page);
      }
    }

    /** qemu_ram_free */
    method Free(addr: nat)
      requires Valid()
      modifies this
      ensures Valid()
      ensures if exists i :: 0 <= i < |old(blocks)| && old(blocks)[i].offset == addr
        then (exists b :: b in old(blocks) && b.offset == addr && multiset(blocks) == multiset(old(blocks)) - multiset{b}) &&
             mru == None && version == old(version) + 1
        else blocks == old(blocks) && mru == old(mru) && version == old(version)
    {
      var k := 0;
      while k < |blocks| && addr != blocks[k].offset
        invariant 0 <= k <= |blocks| && forall j | 0 <= j < k :: blocks[j].offset != addr
      {
        k := k + 1;
      }
      if k < |blocks| {
        RemovedOk(blocks, page, k);
        hide ListOk;
        blocks := Removed(blocks, k);
        mru := None;
        version := version + 1;
        assert old(blocks)[k] in old(blocks);
      }
    }

    /** The walk over the list shared by both lookups. */
    method Find(addr: nat) returns (k: nat)
      ensures k <= |blocks| && (k < |blocks| ==> Within(blocks[k], addr))
      ensures RamPtr(blocks, addr) == if k < |blocks| then Some(blocks[k].host + (addr - blocks[k].offset)) else None
    {
      hide Within;
      k := 0;
      assert blocks[0..] == blocks;
      while k < |blocks| && !Within(blocks[k], addr)
        invariant 0 <= k <= |blocks| && RamPtr(blocks, addr) == RamPtr(blocks[k..], addr)
      {
        assert blocks[k..][1..] == blocks[k + 1..];
        k := k + 1;
      }
    }

    /** qemu_safe_ram_ptr */
    method SafeRamPtr(addr: nat) returns (r: Option<int>)
      requires Valid() && addr <= MAX
      ensures r == RamPtr(blocks, addr)
      ensures forall i | 0 <= i < |blocks| && blocks[i].offset <= addr < blocks[i].offset + blocks[i].length ::
        r == Some(blocks[i].host + (addr - blocks[i].offset))
      ensures r.Some? ==> exists i :: 0 <= i < |blocks| && blocks[i].offset <= addr < blocks[i].offset + blocks[i].length
    {
      RamPtrMeans(blocks, page, addr);
      var k := Find(addr);
      r := if k < |blocks| then Some(blocks[k].host + (addr - blocks[k].offset)) else None;
    }

    /** qemu_get_ram_ptr: the remembered block gives the same answer. */
    method GetRamPtr(addr: nat) returns (r: Option<int>)
      requires Valid() && addr <= MAX
      modifies this`mru
      ensures Valid() && r == RamPtr(blocks, addr)
      ensures if r.None? then mru == old(mru) else mru.Some? && mru.value.offset <= addr < mru.value.offset + mru.value.length
      ensures forall i | 0 <= i < |blocks| && blocks[i].offset <= addr < blocks[i].offset + blocks[i].length ::
        r == Some(blocks[i].host + (addr - blocks[i].offset))
      ensures r.Some? ==> exists i :: 0 <= i < |blocks| && blocks[i].offset <= addr < blocks[i].offset + blocks[i].length
    {
      hide ListOk, Within, RamPtr;
      RamPtrMeans(blocks, page, addr);
      if mru.Some? && Within(mru.value, addr) {
        ghost var k :| 0 <= k < |blocks| && blocks[k] == mru.value;
        AnyBlockAnswers(blocks, page, k, addr);
        WithinBlock(blocks, page, k, addr);
        return Some(mru.value.host + (addr - mru.value.offset));
      }
      var k := Find(addr);
      if k == |blocks| {
        return None;
      }
      WithinBlock(blocks, page, k, addr);
      mru := Some(blocks[k]);
      return Some(blocks[k].host + (addr - blocks[k].offset));
    }

    /** last_ram_offset */
    method LastRamOffset() returns (last: nat)
      ensures forall i | 0 <= i < |blocks| :: End(blocks[i]) <= last
      ensures if blocks == [] then last == 0 else exists i :: 0 <= i < |blocks| && End(blocks[i]) == last
    {
      last := 0;
      for i := 0 to |blocks|
        invariant forall j | 0 <= j < i :: End(blocks[j]) <= last
        invariant if i == 0 then last == 0 else exists j :: 0 <= j < i && End(blocks[j]) == last
      {
        ghost var before := last;
        last := Max(last, End(blocks[i]));
        if i == 0 || last != before {
          assert End(blocks[i]) == last;
        }
      }
    }
  }

  lemma MultiplesAdd(a: nat, b: nat, page: nat)
    requires page > 0 && Multiple(a, page) && Multiple(b, page)
    ensures Multiple(a + b, page)
  {
    var m, n := a / page, b / page;
    assert a == page * m && b == page * n;
    assert a + b == page * (m + n);
    MultipleUnique(page, m + n, a + b);
  }
}
