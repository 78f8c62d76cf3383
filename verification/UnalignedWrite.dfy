/** Byte-granularity writes over a driver that only takes whole sectors:
    read-modify-write of the unaligned ends, and the zero-write path with its
    chunk loop, for one request on an otherwise idle device. */
module UnalignedWrite {
  import opened Common

  const SECTOR := 512
  const MAX_WRITE_ZEROES_DEFAULT := 32768
  const EIO := 5
  const ENOTSUP := 95

  // ---- the plain specification

  /** The disk after a plain byte write of data at off. */
  function Splice(disk: seq<Byte>, off: nat, data: seq<Byte>): (r: seq<Byte>)
    requires off + |data| <= |disk|
    ensures |r| == |disk|
  {
    disk[..off] + data + disk[off + |data|..]
  }

  /** The disk after zeroing n bytes at off. */
  function Zeroed(disk: seq<Byte>, off: nat, n: nat): (r: seq<Byte>)
    requires off + n <= |disk|
    ensures |r| == |disk|
  {
    Splice(disk, off, Zeros(n))
  }

  /** Writing back what is already around the data changes nothing more. */
  lemma PaddedSplice(disk: seq<Byte>, lo: nat, off: nat, data: seq<Byte>, hi: nat)
    requires lo <= off && off + |data| <= hi <= |disk|
    ensures Splice(disk, lo, disk[lo..off] + data + disk[off + |data|..hi]) == Splice(disk, off, data)
  {
    var padded := disk[lo..off] + data + disk[off + |data|..hi];
    assert disk[..lo] + disk[lo..off] == disk[..off];
    assert disk[off + |data|..hi] + disk[hi..] == disk[off + |data|..];
    assert |padded| == hi - lo;
  }

  /** Zeroing inside a block that has been read, then writing the block. */
  lemma ZeroedBlock(disk: seq<Byte>, lo: nat, off: nat, n: nat, hi: nat)
    requires lo <= off && off + n <= hi <= |disk|
    ensures var buf := disk[lo..hi];
      Splice(disk, lo, buf[..off - lo] + Zeros(n) + buf[off - lo + n..]) == Zeroed(disk, off, n)
  {
    var buf := disk[lo..hi];
    assert buf[..off - lo] == disk[lo..off];
    assert buf[off - lo + n..] == disk[off + n..hi];
    PaddedSplice(disk, lo, off, Zeros(n), hi);
  }

  lemma ZeroedTwice(disk: seq<Byte>, off: nat, a: nat, b: nat)
    requires off + a + b <= |disk|
    ensures Zeroed(Zeroed(disk, off, a), off + a, b) == Zeroed(disk, off, a + b)
  {
    assert Zeros(a) + Zeros(b) == Zeros(a + b);
  }

  lemma ZeroedNothing(disk: seq<Byte>, off: nat)
    requires off <= |disk|
    ensures Zeroed(disk, off, 0) == disk
  {
  }

  /** d is disk with some prefix of [off, off + n) zeroed. */
  ghost predicate ZeroedPrefix(disk: seq<Byte>, d: seq<Byte>, off: nat, n: nat)
    requires off + n <= |disk|
  {
    exists z: nat | z <= n :: d == Zeroed(disk, off, z)
  }

  lemma PrefixWitness(disk: seq<Byte>, d: seq<Byte>, off: nat, n: nat, z: nat)
    requires off + n <= |disk| && z <= n && d == Zeroed(disk, off, z)
    ensures ZeroedPrefix(disk, d, off, n)
  {
  }

  lemma AlignedIsSectors(n: int, align: int)
    requires align > 0 && align % SECTOR == 0 && n % align == 0
    ensures n % SECTOR == 0
  {
    assert n == align * (n / align) && align == SECTOR * (align / SECTOR);
    assert n == SECTOR * (align / SECTOR * (n / align));
  }

  lemma BlockIsSectors(block: int, align: int)
    requires align > 0 && align % SECTOR == 0 && Multiple(block, align)
    ensures block % SECTOR == 0 && align % SECTOR == 0
  {
    AlignedIsSectors(block, align);
  }

  /** The aligned range around a request, in whole sectors. */
  lemma PaddedRange(offset: nat, len: nat, align: int) returns (lo: nat, hi: nat)
    requires align > 0 && align % SECTOR == 0
    ensures lo == RoundDown(offset, align) <= offset && offset + len <= hi == RoundUp(offset + len, align)
    ensures lo % SECTOR == 0 && (hi - lo) % SECTOR == 0
    ensures (offset + len) % align == 0 ==> hi == offset + len
  {
    hide RoundDown, RoundUp;
    Rounding(offset, align);
    Rounding(offset + len, align);
    lo, hi := RoundDown(offset, align), RoundUp(offset + len, align);
    AlignedIsSectors(lo, align);
    AlignedIsSectors(hi, align);
    SectorDifference(lo, hi);
  }

  lemma SectorDifference(lo: int, hi: int)
    requires lo % SECTOR == 0 && hi % SECTOR == 0
    ensures (hi - lo) % SECTOR == 0
  {
  }

  // ---- chunks of a zero write, in sectors

  /** The limits a driver announces (0 means none). */
  datatype Limits = Limits(writeZeroesAlignment: nat, maxWriteZeroes: nat) {
    function MaxChunk(): (m: nat)
      ensures m > 0
    {
      if maxWriteZeroes != 0 then maxWriteZeroes else MAX_WRITE_ZEROES_DEFAULT
    }
  }

  /** How many sectors one pass of the loop zeroes. */
  function Chunk(sector: nat, nb: nat, bl: Limits): int
  {
    var a := bl.writeZeroesAlignment;
    var num :=
      if a != 0 && nb > a then
        if sector % a != 0 then a - sector % a
        else if (sector + nb) % a != 0 then nb - (sector + nb) % a
        else nb
      else nb;
    if num > bl.MaxChunk() then bl.MaxChunk() else num
  }

  /** The loop makes progress, stays inside the request and within the
      driver's cap, and the bulk of a request is aligned: a chunk that starts
      unaligned and is not the last one ends on an aligned sector or at the
      cap, and one that starts aligned and is longer than the alignment ends
      aligned or at the cap.  Within these rules a chunk is as long as it can
      be. */
  lemma ChunkProgress(sector: nat, nb: nat, bl: Limits)
    requires nb > 0
    ensures 0 < Chunk(sector, nb, bl) <= nb
    ensures Chunk(sector, nb, bl) <= bl.MaxChunk()
    ensures bl.writeZeroesAlignment != 0 && nb > bl.writeZeroesAlignment ==>
      (sector + Chunk(sector, nb, bl)) % bl.writeZeroesAlignment == 0 ||
      Chunk(sector, nb, bl) == bl.MaxChunk()
    ensures bl.MaxChunk() == if bl.maxWriteZeroes != 0 then bl.maxWriteZeroes else 32768
    ensures var a, n := bl.writeZeroesAlignment, Chunk(sector, nb, bl);
      n == bl.MaxChunk() || (if a == 0 || nb <= a then n == nb else if sector % a != 0 then n < a else nb - n < a)
  {
    var a := bl.writeZeroesAlignment;
    if a != 0 && nb > a {
      if sector % a != 0 {
        Rounding(sector, a);
        assert sector + (a - sector % a) == RoundUp(sector, a);
      } else if (sector + nb) % a != 0 {
        Rounding(sector + nb, a);
        assert sector + (nb - (sector + nb) % a) == RoundDown(sector + nb, a);
      }
    }
  }

  // ---- the device

  class BlockDevice {
    var disk: seq<Byte>
    const align: nat            // MAX(BDRV_SECTOR_SIZE, bs->request_alignment)
    const limits: Limits        // bs->bl
    const hasWriteZeroes: bool  // the driver has bdrv_co_write_zeroes
    const writeCache: bool      // bs->enable_write_cache
    ghost var faulted: bool     // the driver has failed some operation
    ghost var stable: seq<Byte> // the content when it was last flushed

    ghost predicate Valid()
    {
      align > 0 && align % SECTOR == 0
    }

    constructor (content: seq<Byte>, align: nat, limits: Limits, hasWriteZeroes: bool, writeCache: bool)
      requires align > 0 && align % SECTOR == 0
      ensures Valid() && disk == content && this.align == align && this.limits == limits && !faulted
    {
      this.disk := content;
      this.align := align;
      this.limits := limits;
      this.hasWriteZeroes := hasWriteZeroes;
      this.writeCache := writeCache;
      faulted := false;
      stable := content;
    }

    // ---- the driver: whole sectors only, and it may fail at any time

    method DriverReadv(sector: nat, nb: nat) returns (ret: int, buf: seq<Byte>)
      modifies this`faulted
      ensures ret <= 0 && (old(faulted) ==> faulted)
      ensures ret != 0 ==> faulted || (sector + nb) * SECTOR > |disk|
      ensures ret == 0 ==> (sector + nb) * SECTOR <= |disk| && buf == disk[sector * SECTOR..(sector + nb) * SECTOR]
    {
      var fault: bool := *;
      faulted := faulted || fault;
      if fault || (sector + nb) * SECTOR > |disk| {
        return -EIO, [];
      }
      return 0, disk[sector * SECTOR..(sector + nb) * SECTOR];
    }

    method DriverWritev(sector: nat, nb: nat, qiov: seq<Byte>) returns (ret: int)
      requires |qiov| >= nb * SECTOR
      modifies this
      ensures ret <= 0 && (old(faulted) ==> faulted)
      ensures ret != 0 ==> faulted || (sector + nb) * SECTOR > |old(disk)|
      ensures ret == 0 ==> (sector + nb) * SECTOR <= |disk| == |old(disk)| &&
                           disk == Splice(old(disk), sector * SECTOR, qiov[..nb * SECTOR])
      ensures stable == old(stable) && (ret != 0 ==> disk == old(disk))
    {
      var fault: bool := *;
      faulted := faulted || fault;
      if fault || (sector + nb) * SECTOR > |disk| {
        return -EIO;
      }
      disk := Splice(disk, sector * SECTOR, qiov[..nb * SECTOR]);
      return 0;
    }

    method DriverWriteZeroes(sector: nat, nb: nat) returns (ret: int)
      modifies this
      ensures ret <= 0 && (old(faulted) ==> faulted)
      ensures ret != 0 && ret != -ENOTSUP ==> faulted || (sector + nb) * SECTOR > |old(disk)|
      ensures ret == 0 ==> (sector + nb) * SECTOR <= |disk| == |old(disk)| &&
                           disk == Zeroed(old(disk), sector * SECTOR, nb * SECTOR)
      ensures ret != 0 ==> disk == old(disk)
    {
      var unsupported: bool := *;
      if unsupported {
        return -ENOTSUP;
      }
      ret := DriverWritev(sector, nb, Zeros(nb * SECTOR));
      assert Zeros(nb * SECTOR)[..nb * SECTOR] == Zeros(nb * SECTOR);
    }

    method Flush() returns (ret: int)
      modifies this`faulted, this`stable
      ensures ret <= 0 && (old(faulted) ==> faulted) && (ret != 0 ==> faulted)
      ensures stable == if ret == 0 then disk else old(stable)
    {
      var fault: bool := *;
      faulted := faulted || fault;
      if fault {
        return -EIO;
      }
      stable := disk;
      return 0;
    }

    // ---- bdrv_co_do_write_zeroes

    /** One pass of the loop: the efficient operation if the driver has it,
        else a write from the bounce buffer, which is kept only when it is
        long enough for every later chunk. */
    method WriteZeroChunk(sector: nat, num: nat, bounceIn: Option<seq<Byte>>)
      returns (ret: int, bounce: Option<seq<Byte>>)
      requires 0 < num <= limits.MaxChunk() && GoodBounce(bounceIn)
      modifies this
      ensures ret <= 0 && |disk| == |old(disk)| && GoodBounce(bounce) && (old(faulted) ==> faulted)
      ensures ret != 0 ==> faulted || (sector + num) * SECTOR > |disk|
      ensures ret == 0 ==> (sector + num) * SECTOR <= |disk| &&
                           disk == Zeroed(old(disk), sector * SECTOR, num * SECTOR)
      ensures ret != 0 ==> disk == old(disk)
    {
      bounce := bounceIn;
      ret := -ENOTSUP;
      if hasWriteZeroes {
        ret := DriverWriteZeroes(sector, num);
      }
      if ret == -ENOTSUP {
        if bounce.None? {
          bounce := Some(Zeros(num * SECTOR));
        }
        assert bounce.value[..num * SECTOR] == Zeros(num * SECTOR);
        ret := DriverWritev(sector, num, bounce.value);
        if num < limits.MaxChunk() {
          bounce := None;
        }
      }
    }

    predicate GoodBounce(bounce: Option<seq<Byte>>) {
      bounce.Some? ==>
        |bounce.value| >= limits.MaxChunk() * SECTOR &&
        forall i | 0 <= i < |bounce.value| :: bounce.value[i] == 0
    }

    /** Zeroes exactly the requested sectors, or a prefix of them and reports
        an error. */
    method DoWriteZeroes(sector: nat, nb: nat) returns (ret: int)
      requires (sector + nb) * SECTOR <= |disk|
      modifies this
      ensures ret <= 0 && |disk| == |old(disk)| && (old(faulted) ==> faulted) && (ret != 0 ==> faulted)
      ensures ret == 0 ==> disk == Zeroed(old(disk), sector * SECTOR, nb * SECTOR)
      ensures ZeroedPrefix(old(disk), disk, sector * SECTOR, nb * SECTOR)
    {
      hide Zeroed, GoodBounce, Limits.MaxChunk, Chunk;
      ret := 0;
      var s, n := sector, nb;
      var bounce: Option<seq<Byte>> := None;
      NoBounce();
      ZeroedNothing(disk, sector * SECTOR);
      ghost var z: nat := 0;
      while n > 0 && ret == 0
        invariant ret <= 0 && n >= 0 && s + n == sector + nb && sector <= s
        invariant |disk| == |old(disk)| && GoodBounce(bounce) && (old(faulted) ==> faulted) && (ret != 0 ==> faulted)
        invariant z <= (s - sector) * SECTOR && disk == Zeroed(old(disk), sector * SECTOR, z)
        invariant ret == 0 ==> z == (s - sector) * SECTOR
      {
        ChunkProgress(s, n, limits);
        var num := Chunk(s, n, limits);
        ret, bounce := WriteZeroChunk(s, num, bounce);
        if ret == 0 {
          ZeroedTwice(old(disk), sector * SECTOR, z, num * SECTOR);
          z := z + num * SECTOR;
        }
        s := s + num;
        n := n - num;
      }
      PrefixWitness(old(disk), disk, sector * SECTOR, nb * SECTOR, z);
    }

    lemma NoBounce()
      ensures GoodBounce(None)
    {
    }

    // ---- bdrv_aligned_preadv / bdrv_aligned_pwritev (no other request)

    method AlignedPreadv(offset: nat, bytes: nat) returns (ret: int, buf: seq<Byte>)
      requires offset % SECTOR == 0 && bytes % SECTOR == 0
      modifies this`faulted
      ensures ret <= 0 && (old(faulted) ==> faulted)
      ensures ret != 0 ==> faulted || offset + bytes > |disk|
      ensures ret == 0 ==> offset + bytes <= |disk| && buf == disk[offset..offset + bytes]
    {
      ret, buf := DriverReadv(offset / SECTOR, bytes / SECTOR);
    }

    /** None asks for zeroes. */
    method AlignedPwritev(offset: nat, bytes: nat, qiov: Option<seq<Byte>>) returns (ret: int)
      requires offset % SECTOR == 0 && bytes % SECTOR == 0
      requires qiov.Some? ==> |qiov.value| == bytes
      requires qiov.None? ==> offset + bytes <= |disk|
      modifies this
      ensures ret <= 0 && |disk| == |old(disk)| && (old(faulted) ==> faulted)
      ensures ret != 0 ==> faulted || offset + bytes > |disk|
      ensures qiov.Some? ==>
        disk == old(disk) || (offset + bytes <= |disk| && disk == Splice(old(disk), offset, qiov.value))
      ensures qiov.Some? && ret == 0 ==>
        offset + bytes <= |disk| && disk == Splice(old(disk), offset, qiov.value)
      ensures qiov.None? && ret == 0 ==> disk == Zeroed(old(disk), offset, bytes)
      ensures ret == 0 && !writeCache ==> stable == disk
      ensures qiov.None? ==> ZeroedPrefix(old(disk), disk, offset, bytes)
    {
      if qiov.None? {
        ret := DoWriteZeroes(offset / SECTOR, bytes / SECTOR);
      } else {
        assert qiov.value[..bytes / SECTOR * SECTOR] == qiov.value;
        ret := DriverWritev(offset / SECTOR, bytes / SECTOR, qiov.value);
      }
      if ret == 0 && !writeCache {
        ret := Flush();
      }
    }

    // ---- bdrv_co_do_pwritev with data

    /** Reads the block around an unaligned start; local is what has to be
        written from off on. */
    method PadHead(offset: nat, qiov: seq<Byte>) returns (ret: int, off: nat, local: seq<Byte>)
      requires Valid() && offset <= |disk|
      modifies this`faulted
      ensures ret <= 0 && (old(faulted) ==> faulted)
      ensures ret != 0 ==> faulted || RoundUp(offset, align) > |disk|
      ensures ret == 0 ==> off == RoundDown(offset, align) && local == disk[off..offset] + qiov
    {
      Rounding(offset, align);
      ret, off, local := 0, offset, qiov;
      if offset % align != 0 {
        var head: seq<Byte>;
        off := RoundDown(offset, align);
        AlignedIsSectors(off, align);
        AlignedIsSectors(align, align);
        ret, head := AlignedPreadv(off, align);
        if ret == 0 {
          local := head[..offset % align] + qiov;
        }
      } else {
        assert disk[off..offset] == [];
      }
    }

    /** Reads the block around an unaligned end. */
    method PadTail(off: nat, data: seq<Byte>) returns (ret: int, local: seq<Byte>)
      requires Valid() && off + |data| <= |disk|
      modifies this`faulted
      ensures ret <= 0 && (old(faulted) ==> faulted)
      ensures ret != 0 ==> faulted || RoundUp(off + |data|, align) > |disk|
      ensures ret == 0 ==> RoundUp(off + |data|, align) <= |disk| || (off + |data|) % align == 0
      ensures ret == 0 ==> off + |local| == RoundUp(off + |data|, align)
      ensures ret == 0 && off + |local| <= |disk| ==> local == data + disk[off + |data|..off + |local|]
    {
      var end := off + |data|;
      Rounding(end, align);
      ret, local := 0, data;
      if end % align != 0 {
        var tail: seq<Byte>;
        AlignedIsSectors(RoundDown(end, align), align);
        AlignedIsSectors(align, align);
        ret, tail := AlignedPreadv(RoundDown(end, align), align);
        if ret == 0 {
          local := data + tail[end % align..];
        }
      } else {
        assert disk[end..off + |local|] == [];
      }
    }

    /** The device ends on a block boundary. */
    ghost predicate EndsOnBlock()
      requires Valid()
      reads this
    {
      Multiple(|disk|, align)
    }

    /** Exactly a plain byte write, for every offset and length; on an error
        all of it or nothing has been written.  A request inside a device of
        whole blocks fails only if the driver does.  Without a write cache the
        device is flushed when it returns. */
    method Pwritev(offset: int, qiov: seq<Byte>) returns (ret: int)
      requires Valid()
      modifies this
      ensures ret <= 0 && |disk| == |old(disk)|
      ensures ret == 0 ==> 0 <= offset && offset + |qiov| <= |disk| && disk == Splice(old(disk), offset, qiov)
      ensures disk == old(disk) ||
        (0 <= offset && offset + |qiov| <= |disk| && disk == Splice(old(disk), offset, qiov))
      ensures ret != 0 && 0 <= offset && offset + |qiov| <= |disk| && old(EndsOnBlock()) ==> faulted
      ensures ret == 0 && !writeCache ==> stable == disk
    {
      if offset < 0 || offset > |disk| || |disk| - offset < |qiov| {
        return -EIO;
      }
      hide RoundDown, RoundUp, Splice;
      ghost var lo, hi := PaddedRange(offset, |qiov|, align);
      RoundUpInside(offset, |disk|, align);
      RoundUpInside(offset + |qiov|, |disk|, align);
      var off, padded, local;
      ret, off, padded := PadHead(offset, qiov);
      if ret < 0 {
        return;
      }
      ret, local := PadTail(off, padded);
      if ret < 0 {
        return;
      }
      assert off + |padded| == offset + |qiov|;
      assert local == disk[off..offset] + qiov + disk[offset + |qiov|..hi];
      PaddedSplice(disk, off, offset, qiov, hi);
      ret := AlignedPwritev(off, |local|, Some(local));
    }

    // ---- bdrv_co_do_zero_pwritev

    /** Read-modify-write of one block, zeroing n bytes of it at offset. */
    method ZeroInBlock(block: nat, offset: nat, n: nat) returns (ret: int)
      requires Valid() && Multiple(block, align)
      requires block <= offset && offset + n <= block + align && offset + n <= |disk|
      modifies this
      ensures ret <= 0 && |disk| == |old(disk)| && (old(faulted) ==> faulted)
      ensures ret != 0 ==> faulted || block + align > |disk|
      ensures ret == 0 ==> disk == Zeroed(old(disk), offset, n)
      ensures ret == 0 && !writeCache ==> stable == disk
      ensures ZeroedPrefix(old(disk), disk, offset, n)
    {
      hide Zeroed, ZeroedPrefix, Splice, Multiple;
      BlockIsSectors(block, align);
      var buf;
      ZeroedNothing(disk, offset);
      PrefixWitness(disk, disk, offset, n, 0);
      ret, buf := AlignedPreadv(block, align);
      if ret < 0 {
        return;
      }
      ZeroedBlock(disk, block, offset, n, block + align);
      buf := buf[..offset - block] + Zeros(n) + buf[offset - block + n..];
      ret := AlignedPwritev(block, align, Some(buf));
      PrefixWitness(old(disk), Zeroed(old(disk), offset, n), offset, n, n);
    }

    /** The part of a zero write from the first block boundary on: the
        aligned middle, then the rest of the last block. */
    method ZeroFromBoundary(offset: nat, bytes: nat) returns (ret: int)
      requires Valid() && offset + bytes <= |disk| && (bytes > 0 ==> Multiple(offset, align))
      modifies this
      ensures ret <= 0 && |disk| == |old(disk)| && (old(faulted) ==> faulted)
      ensures ret != 0 && old(EndsOnBlock()) ==> faulted
      ensures ret == 0 ==> disk == Zeroed(old(disk), offset, bytes)
      ensures bytes == 0 ==> disk == old(disk) && stable == old(stable)
      ensures ret == 0 && !writeCache && bytes > 0 ==> stable == disk
      ensures ZeroedPrefix(old(disk), disk, offset, bytes)
    {
      hide Zeroed, ZeroedPrefix;
      ret := 0;
      ZeroedNothing(disk, offset);
      PrefixWitness(disk, disk, offset, bytes, 0);
      var middle, tail := 0, bytes;
      if bytes >= align {
        MiddleIsSectors(offset, bytes, align);
        middle, tail := bytes - bytes % align, bytes % align;
        ret := AlignedPwritev(offset, middle, None);
        PrefixExtends(old(disk), old(disk), disk, offset, 0, middle, bytes);
        if ret < 0 {
          return;
        }
      }
      assert disk == Zeroed(old(disk), offset, middle);
      if tail > 0 {
        label last:
        BlockInside(offset + middle, |disk|, align);
        ret := ZeroInBlock(offset + middle, offset + middle, tail);
        PrefixExtends(old(disk), old@last(disk), disk, offset, middle, tail, bytes);
        ZeroedTwice(old(disk), offset, middle, tail);
      }
    }

    /** Exactly zeroes the range, for every offset and length; on an error
        some prefix of it. */
    method ZeroPwritev(offset: int, bytes: nat) returns (ret: int)
      requires Valid()
      modifies this
      ensures ret <= 0 && |disk| == |old(disk)|
      ensures ret == 0 ==> 0 <= offset && offset + bytes <= |disk| && disk == Zeroed(old(disk), offset, bytes)
      ensures disk == old(disk) || (0 <= offset && offset + bytes <= |disk| && ZeroedPrefix(old(disk), disk, offset, bytes))
      ensures ret != 0 && 0 <= offset && offset + bytes <= |disk| && old(EndsOnBlock()) ==> faulted
      ensures ret == 0 && !writeCache && bytes > 0 ==> stable == disk
    {
      if offset < 0 || offset > |disk| || |disk| - offset < bytes {
        return -EIO;
      }
      hide Zeroed, ZeroedPrefix, HeadBytes, Multiple, Splice;
      HeadRange(offset, bytes, align);
      ret := ZeroHead(offset, bytes);
      if ret < 0 {
        return;
      }
      label rest:
      var head: nat := HeadBytes(offset, bytes, align);
      ret := ZeroFromBoundary(offset + head, bytes - head);
      TwoPrefixes(old(disk), old@rest(disk), disk, offset, head, bytes, ret == 0);
    }

    /** The block an unaligned start falls in. */
    method ZeroHead(offset: nat, bytes: nat) returns (ret: int)
      requires Valid() && offset + bytes <= |disk|
      requires 0 <= HeadBytes(offset, bytes, align) <= bytes
      modifies this
      ensures ret <= 0 && |disk| == |old(disk)| && (old(faulted) ==> faulted)
      ensures ret != 0 && old(EndsOnBlock()) ==> faulted
      ensures ret == 0 ==> disk == Zeroed(old(disk), offset, HeadBytes(offset, bytes, align))
      ensures ret == 0 && !writeCache && HeadBytes(offset, bytes, align) > 0 ==> stable == disk
      ensures ZeroedPrefix(old(disk), disk, offset, bytes)
    {
      hide Zeroed, ZeroedPrefix, HeadBytes, RoundDown, Multiple;
      HeadFits(offset, bytes, align);
      ZeroedNothing(disk, offset);
      PrefixWitness(disk, disk, offset, bytes, 0);
      ret := 0;
      if !Multiple(offset, align) {
        var head := HeadBytes(offset, bytes, align);
        BlockAround(offset, |disk|, align);
        ret := ZeroInBlock(RoundDown(offset, align), offset, head);
        PrefixExtends(old(disk), old(disk), disk, offset, 0, head, bytes);
      }
    }
  }

  /** Bytes a zero write clears in the block its unaligned start falls in. */
  function HeadBytes(offset: nat, bytes: nat, align: int): int
    requires align > 0
  {
    if offset % align != 0 then Min(bytes, align - offset % align) else 0
  }

  lemma HeadFits(offset: nat, bytes: nat, align: int)
    requires align > 0
    ensures 0 <= HeadBytes(offset, bytes, align) <= bytes
    ensures 0 <= RoundDown(offset, align) <= offset && Multiple(RoundDown(offset, align), align)
    ensures offset + HeadBytes(offset, bytes, align) <= RoundDown(offset, align) + align
    ensures Multiple(offset, align) ==> HeadBytes(offset, bytes, align) == 0
    ensures bytes > HeadBytes(offset, bytes, align) ==> Multiple(offset + HeadBytes(offset, bytes, align), align)
  {
    Rounding(offset, align);
  }

  lemma HeadRange(offset: nat, bytes: nat, align: int)
    requires align > 0
    ensures 0 <= HeadBytes(offset, bytes, align) <= bytes
    ensures bytes > HeadBytes(offset, bytes, align) ==> Multiple(offset + HeadBytes(offset, bytes, align), align)
  {
    HeadFits(offset, bytes, align);
  }

  /** In a device of whole blocks the block after any boundary inside it fits. */
  lemma BlockInside(block: nat, size: nat, align: int)
    requires align > 0
    ensures Multiple(block, align) && Multiple(size, align) && block < size ==> block + align <= size
  {
    if Multiple(block, align) && Multiple(size, align) && block < size {
      MultiplesApart(block, size, align);
    }
  }

  lemma BlockAround(offset: nat, size: nat, align: int)
    requires align > 0 && offset <= size
    ensures !Multiple(offset, align) && Multiple(size, align) ==> RoundDown(offset, align) + align <= size
  {
    Rounding(offset, align);
    if !Multiple(offset, align) {
      BlockInside(RoundDown(offset, align), size, align);
    }
  }

  lemma RoundUpInside(offset: nat, size: nat, align: int)
    requires align > 0 && offset <= size
    ensures Multiple(size, align) ==> RoundUp(offset, align) <= size
  {
    Rounding(offset, align);
    BlockAround(offset, size, align);
  }

  lemma MiddleIsSectors(off: nat, left: nat, align: int)
    requires align > 0 && align % SECTOR == 0 && off % align == 0 && left >= align
    ensures off % SECTOR == 0 && (left - left % align) % SECTOR == 0
    ensures (off + (left - left % align)) % align == 0 && 0 <= left % align < align <= left
  {
    Rounding(left, align);
    AlignedIsSectors(off, align);
    AlignedIsSectors(RoundDown(left, align), align);
    var a, b := off / align, left / align;
    assert off == a * align && left - left % align == b * align;
    assert off + (left - left % align) == (a + b) * align;
    MultipleUnique(align, a + b, (a + b) * align);
  }

  lemma TwoPrefixes(disk: seq<Byte>, d: seq<Byte>, d': seq<Byte>, off: nat, a: nat, n: nat, done: bool)
    requires off + n <= |disk| && a <= n && d == Zeroed(disk, off, a)
    requires ZeroedPrefix(d, d', off + a, n - a) && (done ==> d' == Zeroed(d, off + a, n - a))
    ensures ZeroedPrefix(disk, d', off, n) && (done ==> d' == Zeroed(disk, off, n))
  {
    hide Zeroed, ZeroedPrefix;
    PrefixExtends(disk, d, d', off, a, n - a, n);
    ZeroedTwice(disk, off, a, n - a);
  }

  /** Zeroing a prefix, then a prefix of what follows, is zeroing a prefix. */
  lemma PrefixExtends(disk: seq<Byte>, d: seq<Byte>, d': seq<Byte>, off: nat, a: nat, b: nat, n: nat)
    requires off + n <= |disk| && a + b <= n && d == Zeroed(disk, off, a)
    requires ZeroedPrefix(d, d', off + a, b)
    ensures ZeroedPrefix(disk, d', off, n)
  {
    var z: nat :| z <= b && d' == Zeroed(d, off + a, z);
    ZeroedTwice(disk, off, a, z);
    PrefixWitness(disk, d', off, n, a + z);
  }
}
