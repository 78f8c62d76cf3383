/** The scripts the block layer runs: plain and copy-on-read reads, unaligned
    writes and zero writes.  Each one is disciplined and stores all its
    bytes, so everything proved about disciplined requests holds for them. */
module BlockScripts {
  import opened Common
  import opened TrackedRequests
  import opened UnalignedWrite

  /** Read of one block for a read-modify-write: mark, wait, and
      bdrv_aligned_preadv, which waits again. */
  function Rmw(site: WaitSite, lo: int, align: int): seq<Instr> {
    [Mark, Wait(site), Wait(AtRead), Read(lo, lo + align)]
  }

  /** The driver writes of bdrv_co_do_write_zeroes. */
  function ChunkWrites(sector: nat, nb: nat, bl: Limits): seq<Instr>
    decreases nb
  {
    if nb == 0 then []
    else
      ChunkProgress(sector, nb, bl);
      var num := Chunk(sector, nb, bl);
      [Write(sector * SECTOR, (sector + num) * SECTOR)] + ChunkWrites(sector + num, nb - num, bl)
  }

  /** bdrv_co_do_preadv without copy on read */
  function ReadScript(shape: Shape): seq<Instr> {
    [Wait(AtRead), Read(shape.offset, shape.End())]
  }

  /** ... with copy on read, all sectors already allocated */
  function CorHitScript(shape: Shape): seq<Instr> {
    [Mark] + ReadScript(shape)
  }

  /** ... with copy on read of whole clusters [lo, hi); a buffer of zeroes may
      go out through the zero-write loop instead of in one write. */
  function CorScript(lo: nat, hi: nat, zeroLoop: bool, bl: Limits): seq<Instr>
    requires lo <= hi
  {
    [Mark, Wait(AtRead), Read(lo, hi)] +
    (if zeroLoop then ChunkWrites(lo / SECTOR, (hi - lo) / SECTOR, bl) else [Write(lo, hi)])
  }

  /** bdrv_co_do_pwritev with data */
  function WriteScript(shape: Shape): seq<Instr>
    requires shape.Valid()
  {
    var a := shape.align;
    (if shape.offset % a != 0 then Rmw(AtHead, RoundDown(shape.offset, a), a) else []) +
    (if shape.End() % a != 0 then Rmw(AtTail, RoundDown(shape.End(), a), a) else []) +
    [Wait(AtWrite), Write(RoundDown(shape.offset, a), RoundUp(shape.End(), a))]
  }

  /** bdrv_co_do_zero_pwritev */
  function ZeroScript(shape: Shape, bl: Limits): seq<Instr>
    requires shape.Valid()
  {
    var a := shape.align;
    HeadFits(shape.offset, shape.bytes, a);
    var head := HeadBytes(shape.offset, shape.bytes, a);
    (if shape.offset % a != 0 then ZeroBlock(AtHead, RoundDown(shape.offset, a), a) else []) +
    ZeroRest(shape, shape.offset + head, shape.bytes - head, bl)
  }

  /** The zero write after its first block boundary: aligned middle in
      chunks, then the last block. */
  function ZeroRest(shape: Shape, off: nat, left: nat, bl: Limits): seq<Instr>
    requires shape.Valid()
  {
    var a := shape.align;
    var middle := if left >= a then left - left % a else 0;
    (if left >= a then [Wait(AtWrite)] + ChunkWrites(off / SECTOR, Max(middle, 0) / SECTOR, bl) else []) +
    (if left - middle > 0 then ZeroBlock(AtTail, off + middle, a) else [])
  }

  function ZeroBlock(site: WaitSite, lo: int, align: int): seq<Instr> {
    Rmw(site, lo, align) + [Wait(AtWrite), Write(lo, lo + align)]
  }

  // ---- discipline of the pieces

  lemma RmwDisciplined(shape: Shape, ser: bool, holding: bool, avail: set<int>,
                       site: WaitSite, lo: int, rest: seq<Instr>)
    requires shape.Valid() && !site.AtWrite?
    requires (ser && holding) || avail == {}
    requires InHull(shape, true, lo, lo + shape.align)
    requires Disciplined(shape, true, true, avail + Range(lo, lo + shape.align), rest)
    ensures Disciplined(shape, ser, holding, avail, Rmw(site, lo, shape.align) + rest)
  {
    var a := shape.align;
    var s0 := Rmw(site, lo, a) + rest;
    var s1 := s0[1..];
    var s2 := s1[1..];
    var s3 := s2[1..];
    assert s3[1..] == rest;
    assert Disciplined(shape, true, true, avail, s3);
    assert Disciplined(shape, true, true, avail, s2);
    assert Disciplined(shape, true, ser && holding, avail, s1);
  }

  lemma WriteDisciplined(shape: Shape, ser: bool, avail: set<int>, lo: int, hi: int, rest: seq<Instr>)
    requires shape.Valid() && InHull(shape, ser, lo, hi)
    requires forall p | lo <= p < hi && !shape.Owns(p) :: ser && p in avail
    requires Disciplined(shape, ser, true, avail, rest)
    ensures Disciplined(shape, ser, true, avail, [Write(lo, hi)] + rest)
  {
    assert ([Write(lo, hi)] + rest)[1..] == rest;
  }

  lemma {:induction false} WritesDisciplined(shape: Shape, ser: bool, avail: set<int>,
                                             sector: nat, nb: nat, bl: Limits, rest: seq<Instr>)
    requires shape.Valid() && InHull(shape, ser, sector * SECTOR, (sector + nb) * SECTOR)
    requires forall p | sector * SECTOR <= p < (sector + nb) * SECTOR && !shape.Owns(p) :: ser && p in avail
    requires Disciplined(shape, ser, true, avail, rest)
    ensures Disciplined(shape, ser, true, avail, ChunkWrites(sector, nb, bl) + rest)
    decreases nb
  {
    hide Disciplined, Chunk;
    if nb == 0 {
      assert ChunkWrites(sector, nb, bl) + rest == rest;
    } else {
      ChunkProgress(sector, nb, bl);
      var num := Chunk(sector, nb, bl);
      var more := ChunkWrites(sector + num, nb - num, bl) + rest;
      WritesDisciplined(shape, ser, avail, sector + num, nb - num, bl, rest);
      WriteDisciplined(shape, ser, avail, sector * SECTOR, (sector + num) * SECTOR, more);
      assert ChunkWrites(sector, nb, bl) + rest == [Write(sector * SECTOR, (sector + num) * SECTOR)] + more;
    }
  }

  lemma {:induction false} WritesCover(sector: nat, nb: nat, bl: Limits, p: int)
    requires sector * SECTOR <= p < (sector + nb) * SECTOR
    ensures WillWrite(ChunkWrites(sector, nb, bl), p)
    decreases nb
  {
    ChunkProgress(sector, nb, bl);
    var num := Chunk(sector, nb, bl);
    var ws := ChunkWrites(sector, nb, bl);
    if p < (sector + num) * SECTOR {
      assert ws[0].Write? && ws[0].lo <= p < ws[0].hi;
    } else {
      WritesCover(sector + num, nb - num, bl, p);
      WillWriteAfter([ws[0]], ChunkWrites(sector + num, nb - num, bl), [], p);
      assert [ws[0]] + ChunkWrites(sector + num, nb - num, bl) + [] == ws;
    }
  }

  lemma WillWriteAfter(before: seq<Instr>, script: seq<Instr>, after: seq<Instr>, p: int)
    requires WillWrite(script, p)
    ensures WillWrite(before + script + after, p)
  {
    var i :| 0 <= i < |script| && script[i].Write? && script[i].lo <= p < script[i].hi;
    var all := before + script + after;
    assert all[|before| + i] == script[i];
  }

  // ---- the scripts

  lemma ReadScriptOk(shape: Shape)
    requires shape.Valid() && shape.data == [] && !shape.copy
    ensures Disciplined(shape, false, false, {}, ReadScript(shape)) && Covers(shape, {}, {}, ReadScript(shape))
  {
    var s := ReadScript(shape);
    assert s[1..] == [Read(shape.offset, shape.End())];
    assert Disciplined(shape, false, true, {}, s[1..]);
    WillReadAt(s, 1, shape.offset, shape.End());
  }

  lemma WillReadAt(script: seq<Instr>, i: nat, lo: int, hi: int)
    requires i < |script| && script[i] == Read(lo, hi)
    ensures forall p | lo <= p < hi :: WillRead(script, p)
  {
    forall p | lo <= p < hi
      ensures WillRead(script, p)
    {
      assert script[i].Read? && script[i].lo <= p < script[i].hi;
    }
  }

  lemma CorHitScriptOk(shape: Shape)
    requires shape.Valid() && shape.data == [] && !shape.copy
    ensures Disciplined(shape, false, false, {}, CorHitScript(shape)) && Covers(shape, {}, {}, CorHitScript(shape))
  {
    Rounding(shape.offset, shape.align);
    Rounding(shape.End(), shape.align);
    var s := CorHitScript(shape);
    assert s[1..][1..] == [Read(shape.offset, shape.End())];
    assert Disciplined(shape, true, true, {}, s[1..][1..]);
    assert Disciplined(shape, true, false, {}, s[1..]);
    WillReadAt(s, 2, shape.offset, shape.End());
  }

  lemma CorScriptOk(shape: Shape, lo: nat, hi: nat, zeroLoop: bool, bl: Limits)
    requires shape.Valid() && shape.data == [] && InHull(shape, true, lo, hi) && lo <= shape.offset && shape.End() <= hi
    requires lo % SECTOR == 0 && hi % SECTOR == 0
    ensures var s := CorScript(lo, hi, zeroLoop, bl);
      Disciplined(shape, false, false, {}, s) && Covers(shape, {}, {}, s)
  {
    var s := CorScript(lo, hi, zeroLoop, bl);
    var writes := if zeroLoop then ChunkWrites(lo / SECTOR, (hi - lo) / SECTOR, bl) else [Write(lo, hi)];
    assert Disciplined(shape, true, true, Range(lo, hi), writes) by {
      if zeroLoop {
        WritesDisciplined(shape, true, Range(lo, hi), lo / SECTOR, (hi - lo) / SECTOR, bl, []);
        assert writes + [] == writes;
      } else {
        assert writes[1..] == [];
      }
    }
    var s1 := s[1..];
    var s2 := s1[1..];
    assert s2[1..] == writes;
    assert {} + Range(lo, hi) == Range(lo, hi);
    assert Disciplined(shape, true, true, {}, s2);
    assert Disciplined(shape, true, false, {}, s1);
    hide Disciplined, ChunkWrites;
    CorScriptCovers(lo, hi, zeroLoop, bl);
  }

  /** Copy on read reads its clusters, and stores all of them. */
  lemma CorScriptCovers(lo: nat, hi: nat, zeroLoop: bool, bl: Limits)
    requires lo <= hi && lo % SECTOR == 0 && hi % SECTOR == 0
    ensures var s := CorScript(lo, hi, zeroLoop, bl); forall p | lo <= p < hi :: WillRead(s, p) && WillWrite(s, p)
  {
    hide ChunkWrites, WillWrite;
    var s := CorScript(lo, hi, zeroLoop, bl);
    var writes := if zeroLoop then ChunkWrites(lo / SECTOR, (hi - lo) / SECTOR, bl) else [Write(lo, hi)];
    WillReadAt(s, 2, lo, hi);
    forall p | lo <= p < hi
      ensures WillWrite(s, p)
    {
      if zeroLoop {
        WritesCover(lo / SECTOR, (hi - lo) / SECTOR, bl, p);
      } else {
        WillWriteAt(writes, 0, lo, hi, p);
      }
      WillWriteAfter([Mark, Wait(AtRead), Read(lo, hi)], writes, [], p);
      assert [Mark, Wait(AtRead), Read(lo, hi)] + writes + [] == s;
    }
  }

  lemma WillWriteAt(script: seq<Instr>, i: nat, lo: int, hi: int, p: int)
    requires i < |script| && script[i] == Write(lo, hi) && lo <= p < hi
    ensures WillWrite(script, p)
  {
    assert script[i].Write? && script[i].lo <= p < script[i].hi;
  }

  /** The final write of a data write, once the padding has been read. */
  lemma FinalWriteDisciplined(shape: Shape, ser: bool, holding: bool, avail: set<int>, lo: int, hi: int)
    requires shape.Valid() && InHull(shape, ser, lo, hi) && (ser ==> holding) && (avail != {} ==> ser)
    requires forall p | lo <= p < hi && !shape.Owns(p) :: ser && p in avail
    ensures Disciplined(shape, ser, holding, avail, [Wait(AtWrite), Write(lo, hi)])
  {
    var s := [Wait(AtWrite), Write(lo, hi)];
    assert s[1..][1..] == [];
    assert Disciplined(shape, ser, true, avail, s[1..]);
  }

  /** A data write from the point where the head, if unaligned, is read. */
  function WriteTail(shape: Shape): seq<Instr>
    requires shape.Valid()
  {
    var a := shape.align;
    (if shape.End() % a != 0 then Rmw(AtTail, RoundDown(shape.End(), a), a) else []) +
    [Wait(AtWrite), Write(RoundDown(shape.offset, a), RoundUp(shape.End(), a))]
  }

  function HeadAvail(shape: Shape): set<int>
    requires shape.Valid()
  {
    var a := shape.align;
    if shape.offset % a != 0 then Range(RoundDown(shape.offset, a), RoundDown(shape.offset, a) + a) else {}
  }

  lemma WriteTailDisciplined(shape: Shape)
    requires shape.Valid() && |shape.data| == shape.bytes && !shape.copy
    ensures var ser := shape.offset % shape.align != 0;
      Disciplined(shape, ser, ser, HeadAvail(shape), WriteTail(shape))
  {
    hide RoundDown, RoundUp, Disciplined;
    var a := shape.align;
    Rounding(shape.offset, a);
    Rounding(shape.End(), a);
    BlocksInHull(shape);
    var lo, hi, tailLo := RoundDown(shape.offset, a), RoundUp(shape.End(), a), RoundDown(shape.End(), a);
    var ser := shape.offset % a != 0;
    var last := [Wait(AtWrite), Write(lo, hi)];
    if shape.End() % a != 0 {
      FinalWriteDisciplined(shape, true, true, HeadAvail(shape) + Range(tailLo, tailLo + a), lo, hi);
      RmwDisciplined(shape, ser, ser, HeadAvail(shape), AtTail, tailLo, last);
    } else {
      FinalWriteDisciplined(shape, ser, ser, HeadAvail(shape), lo, hi);
      assert [] + last == last;
    }
  }

  lemma WriteScriptDisciplined(shape: Shape)
    requires shape.Valid() && |shape.data| == shape.bytes && !shape.copy
    ensures Disciplined(shape, false, false, {}, WriteScript(shape))
  {
    hide RoundDown, RoundUp, Disciplined;
    WriteTailDisciplined(shape);
    BlocksInHull(shape);
    var a := shape.align;
    if shape.offset % a != 0 {
      assert {} + HeadAvail(shape) == HeadAvail(shape);
      RmwDisciplined(shape, false, false, {}, AtHead, RoundDown(shape.offset, a), WriteTail(shape));
      assert Rmw(AtHead, RoundDown(shape.offset, a), a) + WriteTail(shape) == WriteScript(shape);
    } else {
      assert WriteTail(shape) == WriteScript(shape);
    }
  }

  /** The blocks around the two ends lie inside the aligned hull. */
  lemma BlocksInHull(shape: Shape)
    requires shape.Valid()
    ensures var a := shape.align;
      (shape.offset % a != 0 ==> InHull(shape, true, RoundDown(shape.offset, a), RoundDown(shape.offset, a) + a)) &&
      (shape.End() % a != 0 ==> InHull(shape, true, RoundDown(shape.End(), a), RoundDown(shape.End(), a) + a)) &&
      InHull(shape, true, RoundDown(shape.offset, a), RoundUp(shape.End(), a)) &&
      (shape.offset % a == 0 && shape.End() % a == 0 ==>
         InHull(shape, false, RoundDown(shape.offset, a), RoundUp(shape.End(), a)))
  {
    hide RoundDown, RoundUp;
    var a := shape.align;
    Rounding(shape.offset, a);
    Rounding(shape.End(), a);
    var lo, hi, tailLo := RoundDown(shape.offset, a), RoundUp(shape.End(), a), RoundDown(shape.End(), a);
    if shape.offset % a != 0 {
      MultiplesApart(lo, hi, a);
    }
    if tailLo < lo {
      MultiplesApart(tailLo, lo, a);
    }
  }

  lemma WriteScriptOk(shape: Shape)
    requires shape.Valid() && |shape.data| == shape.bytes && !shape.copy
    ensures Disciplined(shape, false, false, {}, WriteScript(shape)) && Covers(shape, {}, {}, WriteScript(shape))
  {
    WriteScriptDisciplined(shape);
    hide Disciplined;
    Rounding(shape.offset, shape.align);
    Rounding(shape.End(), shape.align);
    var s := WriteScript(shape);
    forall p | shape.Owns(p)
      ensures WillWrite(s, p)
    {
      var last := s[|s| - 1];
      assert last.Write? && last.lo <= p < last.hi;
    }
  }

  // ---- what the scripts do, and no more

  predicate Marks(script: seq<Instr>) { exists i :: 0 <= i < |script| && script[i].Mark? }

  /** The script stores and reads exactly the bytes of two sets, and marks its
      request serialising exactly if it should. */
  ghost predicate Does(script: seq<Instr>, stored: set<int>, fetched: set<int>, marks: bool) {
    && (forall p :: WillWrite(script, p) <==> p in stored)
    && (forall p :: WillRead(script, p) <==> p in fetched)
    && (Marks(script) <==> marks)
  }

  lemma DoesNothing()
    ensures Does([], {}, {}, false)
  {
  }

  lemma DoesOne(i: Instr)
    ensures Does([i], if i.Write? then Range(i.lo, i.hi) else {}, if i.Read? then Range(i.lo, i.hi) else {}, i.Mark?)
  {
    assert [i][0] == i;
  }

  lemma DoesBoth(a: seq<Instr>, b: seq<Instr>, wa: set<int>, wb: set<int>, ra: set<int>, rb: set<int>, ma: bool, mb: bool)
    requires Does(a, wa, ra, ma) && Does(b, wb, rb, mb)
    ensures Does(a + b, wa + wb, ra + rb, ma || mb)
  {
    var c := a + b;
    forall i | 0 <= i < |a|
      ensures c[i] == a[i]
    {
    }
    forall i | 0 <= i < |b|
      ensures c[|a| + i] == b[i]
    {
    }
    forall p
      ensures WillWrite(c, p) <==> WillWrite(a, p) || WillWrite(b, p)
      ensures WillRead(c, p) <==> WillRead(a, p) || WillRead(b, p)
    {
      EitherWrites(a, b, p);
      EitherReads(a, b, p);
    }
    EitherMarks(a, b);
  }

  lemma EitherWrites(a: seq<Instr>, b: seq<Instr>, p: int)
    ensures WillWrite(a + b, p) <==> WillWrite(a, p) || WillWrite(b, p)
  {
    var c := a + b;
    if WillWrite(c, p) {
      var i :| 0 <= i < |c| && c[i].Write? && c[i].lo <= p < c[i].hi;
      if i >= |a| {
        assert b[i - |a|] == c[i];
      } else {
        assert a[i] == c[i];
      }
    }
    if WillWrite(a, p) {
      WillWriteAfter([], a, b, p);
      assert [] + a + b == c;
    }
    if WillWrite(b, p) {
      WillWriteAfter(a, b, [], p);
      assert a + b + [] == c;
    }
  }

  lemma EitherReads(a: seq<Instr>, b: seq<Instr>, p: int)
    ensures WillRead(a + b, p) <==> WillRead(a, p) || WillRead(b, p)
  {
    var c := a + b;
    if WillRead(c, p) {
      var i :| 0 <= i < |c| && c[i].Read? && c[i].lo <= p < c[i].hi;
      if i >= |a| {
        assert b[i - |a|] == c[i];
      } else {
        assert a[i] == c[i];
      }
    }
    if WillRead(a, p) {
      var i :| 0 <= i < |a| && a[i].Read? && a[i].lo <= p < a[i].hi;
      assert c[i] == a[i];
    }
    if WillRead(b, p) {
      var i :| 0 <= i < |b| && b[i].Read? && b[i].lo <= p < b[i].hi;
      assert c[|a| + i] == b[i];
    }
  }

  lemma EitherMarks(a: seq<Instr>, b: seq<Instr>)
    ensures Marks(a + b) <==> Marks(a) || Marks(b)
  {
    var c := a + b;
    if Marks(c) {
      var i :| 0 <= i < |c| && c[i].Mark?;
      if i >= |a| {
        assert b[i - |a|] == c[i];
      } else {
        assert a[i] == c[i];
      }
    }
    if Marks(a) {
      var i :| 0 <= i < |a| && a[i].Mark?;
      assert c[i] == a[i];
    }
    if Marks(b) {
      var i :| 0 <= i < |b| && b[i].Mark?;
      assert c[|a| + i] == b[i];
    }
  }

  lemma RmwDoes(site: WaitSite, lo: int, align: int)
    ensures Does(Rmw(site, lo, align), {}, Range(lo, lo + align), true)
  {
    var s := Rmw(site, lo, align);
    assert s[0] == Mark && s[3] == Read(lo, lo + align);
    assert forall i | 0 <= i < 4 :: !s[i].Write? && (s[i].Read? ==> i == 3);
  }

  lemma FinalDoes(lo: int, hi: int)
    ensures Does([Wait(AtWrite), Write(lo, hi)], Range(lo, hi), {}, false)
  {
    var s := [Wait(AtWrite), Write(lo, hi)];
    assert s[1] == Write(lo, hi);
    assert forall i | 0 <= i < 2 :: !s[i].Mark? && !s[i].Read? && (s[i].Write? ==> i == 1);
  }

  /** A plain read touches its range alone and is never serialising. */
  lemma ReadScriptExact(shape: Shape)
    ensures Does(ReadScript(shape), {}, Range(shape.offset, shape.End()), false)
  {
    var s := ReadScript(shape);
    assert s[1] == Read(shape.offset, shape.End());
    assert forall i | 0 <= i < |s| :: !s[i].Mark? && !s[i].Write? && (s[i].Read? ==> i == 1);
  }

  /** A block at an end of the request that is not on a boundary. */
  function EdgeBlock(at: nat, align: int): set<int>
    requires align > 0
  {
    if at % align != 0 then Range(RoundDown(at, align), RoundDown(at, align) + align) else {}
  }

  /** A data write stores exactly the blocks it touches; it reads exactly the
      blocks at its two ends that it touches in part, and is serialising
      exactly if there is one. */
  lemma WriteScriptExact(shape: Shape)
    requires shape.Valid()
    ensures var a := shape.align;
      Does(WriteScript(shape), Range(RoundDown(shape.offset, a), RoundUp(shape.End(), a)),
           EdgeBlock(shape.offset, a) + EdgeBlock(shape.End(), a), shape.offset % a != 0 || shape.End() % a != 0)
  {
    hide Does, RoundDown, RoundUp, Range, Rmw;
    var a := shape.align;
    var lo, hi, tailLo := RoundDown(shape.offset, a), RoundUp(shape.End(), a), RoundDown(shape.End(), a);
    var head := if shape.offset % a != 0 then Rmw(AtHead, lo, a) else [];
    var tail := if shape.End() % a != 0 then Rmw(AtTail, tailLo, a) else [];
    var last := [Wait(AtWrite), Write(lo, hi)];
    RmwDoes(AtHead, lo, a);
    RmwDoes(AtTail, tailLo, a);
    DoesNothing();
    FinalDoes(lo, hi);
    var ra, rb := EdgeBlock(shape.offset, a), EdgeBlock(shape.End(), a);
    DoesBoth(head, tail, {}, {}, ra, rb, shape.offset % a != 0, shape.End() % a != 0);
    var nothing: set<int> := {};
    assert nothing + nothing == nothing;
    DoesBoth(head + tail, last, {}, Range(lo, hi), ra + rb, {}, shape.offset % a != 0 || shape.End() % a != 0, false);
    assert {} + Range(lo, hi) == Range(lo, hi) && ra + rb + {} == ra + rb;
    assert head + tail + last == WriteScript(shape);
  }

  // ---- zero writes

  lemma ZeroBlockDisciplined(shape: Shape, ser: bool, holding: bool, avail: set<int>,
                             site: WaitSite, lo: int, rest: seq<Instr>)
    requires shape.Valid() && !site.AtWrite?
    requires (ser && holding) || avail == {}
    requires InHull(shape, true, lo, lo + shape.align)
    requires Disciplined(shape, true, true, avail + Range(lo, lo + shape.align), rest)
    ensures Disciplined(shape, ser, holding, avail, ZeroBlock(site, lo, shape.align) + rest)
  {
    var a := shape.align;
    var now := avail + Range(lo, lo + a);
    var tail := [Wait(AtWrite), Write(lo, lo + a)] + rest;
    assert tail[1..][1..] == rest;
    assert Disciplined(shape, true, true, now, tail[1..]);
    assert Disciplined(shape, true, true, now, tail);
    RmwDisciplined(shape, ser, holding, avail, site, lo, tail);
    assert Rmw(site, lo, a) + tail == ZeroBlock(site, lo, a) + rest;
  }

  lemma ZeroRestDisciplined(shape: Shape, off: nat, left: nat, bl: Limits, ser: bool, avail: set<int>)
    requires shape.Valid() && |shape.data| == shape.bytes && !shape.copy && shape.align % SECTOR == 0
    requires shape.offset <= off && off + left == shape.End() && (left > 0 ==> off % shape.align == 0)
    requires avail != {} ==> ser
    ensures Disciplined(shape, ser, ser, avail, ZeroRest(shape, off, left, bl))
  {
    hide Disciplined;
    var a := shape.align;
    var middle := if left >= a then left - left % a else 0;
    var tail := if left - middle > 0 then ZeroBlock(AtTail, off + middle, a) else [];
    if left >= a {
      MiddleIsSectors(off, left, a);
    }
    forall holding | holding == ser || holding
      ensures Disciplined(shape, ser, holding, avail, tail)
    {
      if left - middle > 0 {
        LastBlockInHull(shape, off + middle);
        EmptyDisciplined(shape, true, true, avail + Range(off + middle, off + middle + a));
        ZeroBlockDisciplined(shape, ser, holding, avail, AtTail, off + middle, []);
        assert tail + [] == tail;
      } else {
        EmptyDisciplined(shape, ser, holding, avail);
      }
    }
    if left >= a {
      var writes := ChunkWrites(off / SECTOR, middle / SECTOR, bl);
      HullGrows(shape);
      WritesDisciplined(shape, ser, avail, off / SECTOR, middle / SECTOR, bl, tail);
      WaitDisciplined(shape, ser, avail, writes + tail);
      assert [Wait(AtWrite)] + (writes + tail) == ZeroRest(shape, off, left, bl);
    } else {
      assert tail == ZeroRest(shape, off, left, bl);
    }
  }

  lemma EmptyDisciplined(shape: Shape, ser: bool, holding: bool, avail: set<int>)
    requires shape.Valid()
    ensures Disciplined(shape, ser, holding, avail, [])
  {
  }

  lemma WaitDisciplined(shape: Shape, ser: bool, avail: set<int>, rest: seq<Instr>)
    requires shape.Valid() && (avail != {} ==> ser) && Disciplined(shape, ser, true, avail, rest)
    ensures Disciplined(shape, ser, ser, avail, [Wait(AtWrite)] + rest)
  {
    assert ([Wait(AtWrite)] + rest)[1..] == rest;
  }

  lemma HullGrows(shape: Shape)
    requires shape.Valid()
    ensures HullLo(shape, true) <= shape.offset && shape.End() <= HullHi(shape, true)
  {
    Rounding(shape.offset, shape.align);
    Rounding(shape.End(), shape.align);
  }

  lemma LastBlockInHull(shape: Shape, lo: int)
    requires shape.Valid() && lo % shape.align == 0 && shape.offset <= lo < shape.End()
    ensures InHull(shape, true, lo, lo + shape.align)
  {
    HullGrows(shape);
    Rounding(shape.End(), shape.align);
    MultiplesApart(lo, HullHi(shape, true), shape.align);
  }

  lemma ZeroScriptDisciplined(shape: Shape, bl: Limits)
    requires shape.Valid() && |shape.data| == shape.bytes && !shape.copy && shape.align % SECTOR == 0
    ensures Disciplined(shape, false, false, {}, ZeroScript(shape, bl))
  {
    hide Disciplined, ZeroRest;
    var a := shape.align;
    HeadFits(shape.offset, shape.bytes, a);
    var head := HeadBytes(shape.offset, shape.bytes, a);
    var rest := ZeroRest(shape, shape.offset + head, shape.bytes - head, bl);
    if shape.offset % a != 0 {
      var lo := RoundDown(shape.offset, a);
      BlocksInHull(shape);
      ZeroRestDisciplined(shape, shape.offset + head, shape.bytes - head, bl, true, {} + Range(lo, lo + a));
      ZeroBlockDisciplined(shape, false, false, {}, AtHead, lo, rest);
    } else {
      ZeroRestDisciplined(shape, shape.offset, shape.bytes, bl, false, {});
      assert [] + rest == rest;
    }
  }

  lemma ZeroBlockWrites(site: WaitSite, lo: int, align: int, p: int)
    requires lo <= p < lo + align
    ensures WillWrite(ZeroBlock(site, lo, align), p)
  {
    var s := ZeroBlock(site, lo, align);
    assert s[5] == Write(lo, lo + align);
  }

  lemma ZeroRestCovers(shape: Shape, off: nat, left: nat, bl: Limits, p: int)
    requires shape.Valid() && shape.align % SECTOR == 0 && off % shape.align == 0
    requires off <= p < off + left
    ensures WillWrite(ZeroRest(shape, off, left, bl), p)
  {
    hide WillWrite, ChunkWrites;
    var a := shape.align;
    var middle := if left >= a then left - left % a else 0;
    var tail := if left - middle > 0 then ZeroBlock(AtTail, off + middle, a) else [];
    if left >= a {
      MiddleIsSectors(off, left, a);
    }
    if p < off + middle {
      var writes := ChunkWrites(off / SECTOR, middle / SECTOR, bl);
      WritesCover(off / SECTOR, middle / SECTOR, bl, p);
      WillWriteAfter([Wait(AtWrite)], writes, tail, p);
    } else {
      ZeroBlockWrites(AtTail, off + middle, a, p);
      var before := if left >= a then [Wait(AtWrite)] + ChunkWrites(off / SECTOR, middle / SECTOR, bl) else [];
      WillWriteAfter(before, tail, [], p);
      assert before + tail + [] == ZeroRest(shape, off, left, bl);
    }
  }

  lemma ZeroScriptOk(shape: Shape, bl: Limits)
    requires shape.Valid() && |shape.data| == shape.bytes && !shape.copy && shape.align % SECTOR == 0
    ensures Disciplined(shape, false, false, {}, ZeroScript(shape, bl)) && Covers(shape, {}, {}, ZeroScript(shape, bl))
  {
    ZeroScriptDisciplined(shape, bl);
    hide Disciplined, ZeroRest, WillWrite, HeadBytes;
    var a := shape.align;
    HeadFits(shape.offset, shape.bytes, a);
    var head := HeadBytes(shape.offset, shape.bytes, a);
    var rest := ZeroRest(shape, shape.offset + head, shape.bytes - head, bl);
    var first := if shape.offset % a != 0 then ZeroBlock(AtHead, RoundDown(shape.offset, a), a) else [];
    forall p | shape.Owns(p)
      ensures WillWrite(ZeroScript(shape, bl), p)
    {
      if p < shape.offset + head {
        ZeroBlockWrites(AtHead, RoundDown(shape.offset, a), a, p);
        WillWriteAfter([], first, rest, p);
        assert [] + first + rest == ZeroScript(shape, bl);
      } else {
        ZeroRestCovers(shape, shape.offset + head, shape.bytes - head, bl, p);
        WillWriteAfter(first, rest, [], p);
        assert first + rest + [] == ZeroScript(shape, bl);
      }
    }
  }

  // ---- exactly what copy on read and zero writes do

  lemma {:induction false} ChunksDo(sector: nat, nb: nat, bl: Limits)
    ensures Does(ChunkWrites(sector, nb, bl), Range(sector * SECTOR, (sector + nb) * SECTOR), {}, false)
    decreases nb
  {
    hide Does, Chunk, Range;
    if nb == 0 {
      EmptyRange(sector * SECTOR);
      DoesNothing();
    } else {
      ChunkProgress(sector, nb, bl);
      var num := Chunk(sector, nb, bl);
      var lo, mid, hi := sector * SECTOR, (sector + num) * SECTOR, (sector + nb) * SECTOR;
      ChunksDo(sector + num, nb - num, bl);
      DoesOne(Write(lo, mid));
      var nothing: set<int> := {};
      DoesBoth([Write(lo, mid)], ChunkWrites(sector + num, nb - num, bl), Range(lo, mid), Range(mid, hi), {}, {}, false, false);
      JoinedRange(lo, mid, hi);
      assert nothing + nothing == nothing;
    }
  }

  lemma EmptyRange(a: int)
    ensures Range(a, a) == {}
  {
  }

  lemma JoinedRange(a: int, b: int, c: int)
    requires a <= b <= c
    ensures Range(a, b) + Range(b, c) == Range(a, c)
  {
  }

  /** Copy on read reads its clusters and stores them, and nothing else. */
  lemma CorScriptExact(lo: nat, hi: nat, zeroLoop: bool, bl: Limits)
    requires lo <= hi && lo % SECTOR == 0 && hi % SECTOR == 0
    ensures Does(CorScript(lo, hi, zeroLoop, bl), Range(lo, hi), Range(lo, hi), true)
  {
    hide Does, Range, ChunkWrites;
    var head := [Mark, Wait(AtRead), Read(lo, hi)];
    CorHeadDoes(lo, hi);
    WholeSectors(lo, hi);
    var writes := if zeroLoop then ChunkWrites(lo / SECTOR, (hi - lo) / SECTOR, bl) else [Write(lo, hi)];
    ChunksDo(lo / SECTOR, (hi - lo) / SECTOR, bl);
    DoesOne(Write(lo, hi));
    DoesBoth(head, writes, {}, Range(lo, hi), Range(lo, hi), {}, true, false);
    assert {} + Range(lo, hi) == Range(lo, hi) == Range(lo, hi) + {};
  }

  lemma CorHeadDoes(lo: int, hi: int)
    ensures Does([Mark, Wait(AtRead), Read(lo, hi)], {}, Range(lo, hi), true)
  {
    var head := [Mark, Wait(AtRead), Read(lo, hi)];
    assert head[0] == Mark && head[2] == Read(lo, hi);
    assert forall i | 0 <= i < 3 :: !head[i].Write? && (head[i].Read? ==> i == 2);
  }

  lemma WholeSectors(lo: nat, hi: nat)
    requires lo <= hi && lo % SECTOR == 0 && hi % SECTOR == 0
    ensures lo / SECTOR * SECTOR == lo && (lo / SECTOR + (hi - lo) / SECTOR) * SECTOR == hi
  {
  }

  lemma ZeroBlockDoes(site: WaitSite, lo: int, align: int)
    ensures Does(ZeroBlock(site, lo, align), Range(lo, lo + align), Range(lo, lo + align), true)
  {
    hide Does, Range, Rmw;
    RmwDoes(site, lo, align);
    FinalDoes(lo, lo + align);
    var b := Range(lo, lo + align);
    DoesBoth(Rmw(site, lo, align), [Wait(AtWrite), Write(lo, lo + align)], {}, b, b, {}, true, false);
    assert {} + b == b == b + {};
  }

  lemma MiddleDoes(off: nat, middle: nat, bl: Limits)
    requires off % SECTOR == 0 && middle % SECTOR == 0
    ensures Does([Wait(AtWrite)] + ChunkWrites(off / SECTOR, middle / SECTOR, bl), Range(off, off + middle), {}, false)
  {
    hide Does, Range, ChunkWrites;
    ChunksDo(off / SECTOR, middle / SECTOR, bl);
    DoesOne(Wait(AtWrite));
    var nothing: set<int> := {};
    DoesBoth([Wait(AtWrite)], ChunkWrites(off / SECTOR, middle / SECTOR, bl), {}, Range(off, off + middle), {}, {}, false, false);
    assert nothing + Range(off, off + middle) == Range(off, off + middle) && nothing + nothing == nothing;
  }

  /** From a block boundary on: whole blocks, and the last one read first. */
  lemma ZeroRestDoes(shape: Shape, off: nat, left: nat, bl: Limits)
    requires shape.Valid() && shape.align % SECTOR == 0 && off % shape.align == 0
    ensures var a := shape.align;
      Does(ZeroRest(shape, off, left, bl), Range(off, RoundUp(off + left, a)), EdgeBlock(off + left, a), (off + left) % a != 0)
  {
    hide Does, Range, ChunkWrites, ZeroBlock;
    var a := shape.align;
    var middle := if left >= a then left - left % a else 0;
    var tailOn := left - middle > 0;
    var front := if left >= a then [Wait(AtWrite)] + ChunkWrites(off / SECTOR, middle / SECTOR, bl) else [];
    var tail := if tailOn then ZeroBlock(AtTail, off + middle, a) else [];
    TailBlock(off, left, a);
    AlignedIsSectors(off, a);
    AlignedIsSectors(off + middle, a);
    if left >= a {
      MiddleIsSectors(off, left, a);
      MiddleDoes(off, middle, bl);
    }
    DoesNothing();
    EmptyRange(off);
    ZeroBlockDoes(AtTail, off + middle, a);
    var end := if tailOn then off + middle + a else off + middle;
    EmptyRange(off + middle);
    DoesBoth(front, tail, Range(off, off + middle), Range(off + middle, end), {}, EdgeBlock(off + left, a), false, tailOn);
    JoinedRange(off, off + middle, end);
    assert {} + EdgeBlock(off + left, a) == EdgeBlock(off + left, a);
  }

  lemma TailBlock(off: nat, left: nat, a: int)
    requires a > 0 && off % a == 0
    ensures var middle := if left >= a then left - left % a else 0;
      && (off + middle) % a == 0 && middle >= 0
      && (left - middle > 0 <==> (off + left) % a != 0)
      && RoundDown(off + left, a) == off + middle
      && RoundUp(off + left, a) == if left - middle > 0 then off + middle + a else off + middle
  {
    var k, n, m := off / a, left / a, left % a;
    assert off == a * k && left == a * n + m;
    if left < a {
      SmallQuotient(left, a);
    }
    hide RoundDown, RoundUp;
    assert off + (left - m) == a * (k + n);
    MultipleOf(k + n, a);
    Rest(off + left, k + n, m, a);
    DownAndUp(off + left, a);
  }

  lemma SmallQuotient(x: nat, a: int)
    requires a > 0 && x < a
    ensures x / a == 0 && x % a == x
  {
    Rest(x, 0, x, a);
    var q := x / a;
    assert x == a * q + x % a;
    assert q >= 1 ==> a * q >= a;
  }

  lemma DownAndUp(x: int, a: int)
    requires a > 0
    ensures RoundDown(x, a) == x - x % a && RoundUp(x, a) == if x % a != 0 then x - x % a + a else x
  {
    Rounding(x, a);
  }

  lemma MultipleOf(k: int, a: int)
    requires a > 0
    ensures (a * k) % a == 0
  {
    Rest(a * k, k, 0, a);
  }

  lemma Rest(x: int, k: int, m: int, a: int)
    requires a > 0 && x == a * k + m && 0 <= m < a
    ensures x % a == m
  {
    var q, t := x / a, x % a;
    assert x == a * q + t;
    var d := q - k;
    assert a * d == m - t;
    assert d >= 1 ==> a * d >= a;
    assert d <= -1 ==> a * d <= -a;
  }

  /** A zero write stores exactly the blocks it touches; it reads exactly the
      blocks at its two ends that it touches in part, and is serialising
      exactly if there is one. */
  lemma ZeroScriptExact(shape: Shape, bl: Limits)
    requires shape.Valid() && shape.align % SECTOR == 0
    ensures var a := shape.align;
      Does(ZeroScript(shape, bl), Range(RoundDown(shape.offset, a), RoundUp(shape.End(), a)),
           EdgeBlock(shape.offset, a) + EdgeBlock(shape.End(), a), shape.offset % a != 0 || shape.End() % a != 0)
  {
    hide Does, Range, ZeroBlock, ZeroRest;
    var a := shape.align;
    HeadFits(shape.offset, shape.bytes, a);
    var head := HeadBytes(shape.offset, shape.bytes, a);
    var rest := ZeroRest(shape, shape.offset + head, shape.bytes - head, bl);
    if shape.offset % a == 0 {
      ZeroRestDoes(shape, shape.offset, shape.bytes, bl);
      Rounding(shape.offset, a);
      assert [] + rest == rest;
      assert {} + EdgeBlock(shape.End(), a) == EdgeBlock(shape.End(), a);
    } else {
      var lo := RoundDown(shape.offset, a);
      var first := ZeroBlock(AtHead, lo, a);
      ZeroBlockDoes(AtHead, lo, a);
      HeadEnds(shape.offset, shape.bytes, a);
      if shape.bytes - head == 0 {
        NoRest(shape, shape.End(), bl);
        assert first + [] == first;
        OneBlock(shape.offset, shape.End(), a);
      } else {
        ZeroRestDoes(shape, lo + a, shape.bytes - head, bl);
        var b, hi := Range(lo, lo + a), RoundUp(shape.End(), a);
        DoesBoth(first, rest, b, Range(lo + a, hi), b, EdgeBlock(shape.End(), a), true, shape.End() % a != 0);
        Rounding(shape.End(), a);
        JoinedRange(lo, lo + a, hi);
      }
    }
  }

  lemma NoRest(shape: Shape, off: nat, bl: Limits)
    requires shape.Valid()
    ensures ZeroRest(shape, off, 0, bl) == []
  {
  }

  /** The head is what the request has of its first block. */
  lemma HeadEnds(offset: nat, bytes: nat, a: int)
    requires a > 0 && offset % a != 0
    ensures var head := HeadBytes(offset, bytes, a);
      head <= bytes && offset + head <= RoundDown(offset, a) + a && (head < bytes ==> offset + head == RoundDown(offset, a) + a)
  {
    HeadFits(offset, bytes, a);
    Rounding(offset, a);
  }

  /** A request inside one block that starts off its boundary. */
  lemma OneBlock(offset: nat, end: nat, a: int)
    requires a > 0 && offset % a != 0 && offset <= end <= RoundDown(offset, a) + a
    ensures RoundUp(end, a) == RoundDown(offset, a) + a
    ensures EdgeBlock(offset, a) + EdgeBlock(end, a) == Range(RoundDown(offset, a), RoundDown(offset, a) + a)
  {
    hide Range;
    Rounding(offset, a);
    Rounding(end, a);
    var lo := RoundDown(offset, a);
    var k := lo / a;
    assert lo == a * k;
    if end == lo + a {
      assert end == a * (k + 1);
      MultipleOf(k + 1, a);
    } else {
      Rest(end, k, end - lo, a);
    }
    hide RoundDown, RoundUp;
  }

  // ---- the block layer as a whole

  /** MAX(512, request_alignment), request_alignment, cluster size (0: none)
      and zero-write limits of the device. */
  datatype Device = Device(align: int, requestAlignment: int, cluster: nat, limits: Limits) {
    predicate Valid() {
      align > 0 && align % SECTOR == 0 && requestAlignment > 0 && cluster % SECTOR == 0
    }

    /** bdrv_get_cluster_size */
    function CorAlign(): int { if cluster == 0 then requestAlignment else cluster }
  }

  datatype Kind = PlainRead | CorHit | CorCopy(zeroLoop: bool) | DataWrite | ZeroWrite

  /** shape is what the block layer tracks for a request of this kind. */
  predicate Issued(dev: Device, kind: Kind, shape: Shape) {
    && dev.Valid() && shape.Valid()
    && match kind
       case PlainRead => shape.data == [] && !shape.copy
       case CorHit => shape.data == [] && !shape.copy && shape.align == dev.CorAlign()
       case CorCopy(_) => shape.data == [] && shape.copy && shape.align == dev.CorAlign() &&
                          shape.offset % SECTOR == 0 && shape.bytes % SECTOR == 0
       case DataWrite => |shape.data| == shape.bytes && !shape.copy && shape.align == dev.align
       case ZeroWrite => shape.data == Zeros(shape.bytes) && !shape.copy && shape.align == dev.align
  }

  function Script(dev: Device, kind: Kind, shape: Shape): seq<Instr>
    requires Issued(dev, kind, shape)
  {
    match kind
    case PlainRead => ReadScript(shape)
    case CorHit => CorHitScript(shape)
    case CorCopy(zeroLoop) =>
      // bdrv_round_to_clusters
      if dev.cluster == 0 then CorScript(shape.offset, shape.End(), zeroLoop, dev.limits)
      else
        HullGrows(shape);
        Rounding(shape.offset, dev.cluster);
        CorScript(RoundDown(shape.offset, dev.cluster), RoundUp(shape.End(), dev.cluster), zeroLoop, dev.limits)
    case DataWrite => WriteScript(shape)
    case ZeroWrite => ZeroScript(shape, dev.limits)
  }

  lemma CorCopyOk(dev: Device, zeroLoop: bool, shape: Shape)
    requires Issued(dev, CorCopy(zeroLoop), shape)
    ensures var script := Script(dev, CorCopy(zeroLoop), shape);
      Disciplined(shape, false, false, {}, script) && Covers(shape, {}, {}, script)
  {
    hide Disciplined, Covers, CorScript, RoundDown, RoundUp;
    HullGrows(shape);
    if dev.cluster == 0 {
      CorScriptOk(shape, shape.offset, shape.End(), zeroLoop, dev.limits);
    } else {
      Rounding(shape.offset, dev.cluster);
      Rounding(shape.End(), dev.cluster);
      var lo, hi := RoundDown(shape.offset, dev.cluster), RoundUp(shape.End(), dev.cluster);
      AlignedIsSectors(lo, dev.cluster);
      AlignedIsSectors(hi, dev.cluster);
      CorScriptOk(shape, lo, hi, zeroLoop, dev.limits);
    }
  }

  /** Every request the block layer issues may begin in every state, so the
      protocol theorems cover all of them. */
  lemma IssuedMayBegin(dev: Device, kind: Kind, shape: Shape, s: State)
    requires Issued(dev, kind, shape)
    ensures Enabled(s, Begin(shape, Script(dev, kind, shape)))
  {
    hide Disciplined, Covers, CorScript, ReadScript, CorHitScript, WriteScript, ZeroScript, RoundDown, RoundUp;
    match kind
    case PlainRead => ReadScriptOk(shape);
    case CorHit => CorHitScriptOk(shape);
    case CorCopy(zeroLoop) => CorCopyOk(dev, zeroLoop, shape);
    case DataWrite => WriteScriptOk(shape);
    case ZeroWrite => ZeroScriptOk(shape, dev.limits);
  }
}
