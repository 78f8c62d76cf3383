/** What ram_load does with any bytes at all: when it refuses a record, and
    what it has changed by then. */
module RamRefusals {
  import opened Common
  import opened Numbers
  import opened RamStream
  import Xbzrle

  lemma Word2(b: seq<Byte>)
    requires |b| == 2
    ensures FromBe(b) == Value2(b)
  {
    assert b[..1] == [b[0]];
    assert FromBe(b[..1]) == b[0] as int;
  }

  lemma PrefixStep(b: seq<Byte>, k: nat)
    requires k < |b|
    ensures FromBe(b[..k + 1]) == FromBe(b[..k]) * 256 + b[k] as int
  {
    assert b[..k + 1][..k] == b[..k];
  }

  lemma Word8(b: seq<Byte>)
    requires |b| == 8
    ensures FromBe(b) == Value8(b)
  {
    assert FromBe(b[..0]) == 0;
    hide FromBe;
    assert b[..8] == b;
    PrefixStep(b, 0);
    PrefixStep(b, 1);
    PrefixStep(b, 2);
    PrefixStep(b, 3);
    PrefixStep(b, 4);
    PrefixStep(b, 5);
    PrefixStep(b, 6);
    PrefixStep(b, 7);
  }

  /** The length of a delta. */
  function DeltaLength(s: seq<Byte>, pos: nat): nat
    requires pos + 3 <= |s|
  {
    Value2(s[pos + 1..pos + 3])
  }

  /** No delta for that page at pos: it lacks bytes, its first byte is not a
      one, its length is more than a page, or it is malformed. */
  predicate NoDelta(s: seq<Byte>, pos: nat, page: Page) {
    || pos + 3 > |s| || s[pos] != 1
    || var len := DeltaLength(s, pos);
       len > 4096 || pos + 3 + len > |s| || Xbzrle.Decode(s[pos + 3..pos + 3 + len], page).None?
  }

  ghost predicate OthersKept(ram: Ram, ram': Ram, i: nat, j: nat) {
    && |ram'| == |ram|
    && (forall m | 0 <= m < |ram| :: |ram'[m]| == |ram[m]|)
    && forall m, n | 0 <= m < |ram| && 0 <= n < |ram[m]| && (m, n) != (i, j) :: ram'[m][n] == ram[m][n]
  }

  lemma Poked(ram: Ram, i: nat, j: nat, page: Page)
    requires i < |ram| && j < |ram[i]|
    ensures var ram' := Poke(ram, i, j, page); OthersKept(ram, ram', i, j) && ram'[i][j] == page
  {
  }

  /** The payload behind flag 0x02, 0x08 or 0x40: refused exactly when it is
      cut off or no delta; otherwise the page is filled, replaced or patched.
      No other page is touched either way. */
  ghost predicate PayloadTaken(s: seq<Byte>, st: State, i: nat, j: nat, flag: int, o: Outcome)
    requires i < |st.ram| && j < |st.ram[i]|
  {
    && OthersKept(st.ram, o.st.ram, i, j) && o.st.block == st.block
    && (o.Bad? <==> if flag == 0x02 then st.pos >= |s|
                    else if flag == 0x08 then st.pos + 4096 > |s|
                    else NoDelta(s, st.pos, st.ram[i][j]))
    && (o.Bad? && flag != 0x40 ==> o.st == st)
    && (o.Good? ==> Loaded(s, st.pos, st.ram[i][j], flag, o.st.pos, o.st.ram[i][j]))
  }

  lemma PayloadIff(blocks: seq<Block>, s: seq<Byte>, st: State, i: nat, j: nat, flag: int)
    requires Valid(blocks, st) && i < |blocks| && j < |st.ram[i]| && flag in {0x02, 0x08, 0x40}
    ensures PayloadTaken(s, st, i, j, flag, LoadPayload(blocks, s, st, i, j, flag))
  {
    if flag == 0x40 {
      DeltaIff(blocks, s, st, i, j);
    } else {
      WholeIff(blocks, s, st, i, j, flag);
    }
  }

  lemma WholeIff(blocks: seq<Block>, s: seq<Byte>, st: State, i: nat, j: nat, flag: int)
    requires Valid(blocks, st) && i < |blocks| && j < |st.ram[i]| && flag in {0x02, 0x08}
    ensures PayloadTaken(s, st, i, j, flag, LoadPayload(blocks, s, st, i, j, flag))
  {
    InRam(blocks, st);
    hide Xbzrle.DecodeInto, Shaped, Poke, OthersKept, NoDelta;
    Kept(st.ram, i, j);
    if st.pos + 4096 <= |s| {
      Poked(st.ram, i, j, s[st.pos..st.pos + 4096]);
    }
    if st.pos < |s| {
      Poked(st.ram, i, j, Fill(s[st.pos]));
    }
  }

  lemma CutOffDelta(blocks: seq<Block>, s: seq<Byte>, st: State, i: nat, j: nat)
    requires Valid(blocks, st) && i < |blocks| && j < |st.ram[i]|
    requires st.pos + 3 > |s| || s[st.pos] != 1 || DeltaLength(s, st.pos) > 4096 || st.pos + 3 + DeltaLength(s, st.pos) > |s|
    ensures var o := LoadPayload(blocks, s, st, i, j, 0x40); o.Bad? && o.st.ram == st.ram && o.st.block == st.block
  {
    hide FromBe, Value2, Xbzrle.DecodeInto, Shaped, Poke, Fill;
    if st.pos + 3 <= |s| {
      var h := s[st.pos..st.pos + 3];
      assert h[1..] == s[st.pos + 1..st.pos + 3];
      Word2(h[1..]);
    }
  }

  lemma WholeDelta(blocks: seq<Block>, s: seq<Byte>, st: State, i: nat, j: nat)
    requires Valid(blocks, st) && i < |blocks| && j < |st.ram[i]|
    requires st.pos + 3 <= |s| && s[st.pos] == 1 && DeltaLength(s, st.pos) <= 4096 && st.pos + 3 + DeltaLength(s, st.pos) <= |s|
    ensures var o, end := LoadPayload(blocks, s, st, i, j, 0x40), st.pos + 3 + DeltaLength(s, st.pos);
      var d := Xbzrle.DecodeInto(s[st.pos + 3..end], 0, st.ram[i][j], 0);
      o.Good? == d.ok && o.st == State(end, st.block, Poke(st.ram, i, j, d.page))
  {
    hide FromBe, Value2, Xbzrle.DecodeInto, Shaped, Poke, Fill;
    var h := s[st.pos..st.pos + 3];
    assert h[1..] == s[st.pos + 1..st.pos + 3];
    Word2(h[1..]);
  }

  lemma DeltaIff(blocks: seq<Block>, s: seq<Byte>, st: State, i: nat, j: nat)
    requires Valid(blocks, st) && i < |blocks| && j < |st.ram[i]|
    ensures PayloadTaken(s, st, i, j, 0x40, LoadPayload(blocks, s, st, i, j, 0x40))
  {
    hide Value2, LoadPayload, Xbzrle.DecodeInto, Shaped, Poke, OthersKept, DeltaLength;
    InRam(blocks, st);
    if st.pos + 3 > |s| || s[st.pos] != 1 || DeltaLength(s, st.pos) > 4096 || st.pos + 3 + DeltaLength(s, st.pos) > |s| {
      CutOffDelta(blocks, s, st, i, j);
      Kept(st.ram, i, j);
    } else {
      WholeDelta(blocks, s, st, i, j);
      var d := Xbzrle.DecodeInto(s[st.pos + 3..st.pos + 3 + DeltaLength(s, st.pos)], 0, st.ram[i][j], 0);
      Poked(st.ram, i, j, d.page);
    }
  }

  lemma InRam(blocks: seq<Block>, st: State)
    requires Valid(blocks, st)
    ensures |st.ram| == |blocks|
  {
  }

  lemma Kept(ram: Ram, i: nat, j: nat)
    ensures OthersKept(ram, ram, i, j)
  {
  }

  /** What an accepted payload makes of a page, and where it ends. */
  ghost predicate Loaded(s: seq<Byte>, pos: nat, page: Page, flag: int, pos': nat, page': Page) {
    if flag == 0x02 then
      pos < |s| && pos' == pos + 1 && |page'| == 4096 && forall k | 0 <= k < 4096 :: page'[k] == s[pos]
    else if flag == 0x08 then pos + 4096 <= |s| && pos' == pos + 4096 && page' == s[pos..pos + 4096]
    else
      && pos + 3 <= |s|
      && var len := DeltaLength(s, pos);
         pos' == pos + 3 + len <= |s| && Xbzrle.Decode(s[pos + 3..pos'], page) == Some(page')
  }

  /** No block for that name and offset: the name is cut off, or no block of
      that name is longer than the offset. */
  predicate NoHost(blocks: seq<Block>, s: seq<Byte>, pos: nat, addr: nat) {
    || pos >= |s| || pos + 1 + s[pos] as int > |s|
    || var name := s[pos + 1..pos + 1 + s[pos] as int];
       forall k | 0 <= k < |blocks| :: blocks[k].id == CString(name) ==> blocks[k].length <= addr
  }

  /** host_from_stream_offset gives no block exactly when there is none; a name
      that matches nothing makes it forget the last one. */
  lemma HostIff(blocks: seq<Block>, s: seq<Byte>, st: State, addr: nat, cont: bool)
    requires Valid(blocks, st)
    ensures var h := HostFromStream(blocks, s, st, addr, cont);
      && (h.1.None? <==> if cont then st.block.None? || blocks[st.block.value].length <= addr
                         else NoHost(blocks, s, st.pos, addr))
      && (cont ==> h.0 == st && (h.1.Some? ==> h.1 == st.block))
      && (!cont && h.0 != st ==> h.0.block == h.1 && st.pos < |s| && h.0.pos == st.pos + 1 + s[st.pos] as int <= |s|)
      && (!cont && h.1.Some? ==> h.0 != st && st.pos < h.0.pos <= |s| && blocks[h.1.value].id == CString(s[st.pos + 1..h.0.pos]))
  {
    hide CString, Shaped;
  }

  /** The low twelve bits of the word are the flags. */
  lemma FlagBits(w: nat)
    ensures Flags(w) == w % 4096
    ensures var f := Flags(w);
      && (HasCompress(f) <==> f / 0x02 % 2 == 1) && (HasMemSize(f) <==> f / 0x04 % 2 == 1)
      && (HasRaw(f) <==> f / 0x08 % 2 == 1) && (HasEos(f) <==> f / 0x10 % 2 == 1)
      && (HasContinue(f) <==> f / 0x20 % 2 == 1) && (HasXbzrle(f) <==> f / 0x40 % 2 == 1)
      && (HasHook(f) <==> f / 0x80 % 2 == 1)
  {
  }

  /** They are looked at in the order COMPRESS, PAGE, XBZRLE, HOOK; the rest of
      the word is the offset of the page. */
  lemma ItemMeans(blocks: seq<Block>, s: seq<Byte>, st: State, w: nat)
    requires Valid(blocks, st) && !HasMemSize(Flags(w))
    ensures var o, f := LoadItem(blocks, s, st, w), Flags(w);
      var h := HostFromStream(blocks, s, st, w - f, HasContinue(f));
      if HasCompress(f) || HasRaw(f) || HasXbzrle(f) then
        if h.1.None? then o == Bad(h.0)
        else
          var flag := if HasCompress(f) then 0x02 else if HasRaw(f) then 0x08 else 0x40;
          w / 4096 < |h.0.ram[h.1.value]| && o == LoadPayload(blocks, s, h.0, h.1.value, w / 4096, flag)
      else o == if HasHook(f) then Bad(st) else Good(st)
  {
    var addr := w - Flags(w);
    assert addr / 4096 == w / 4096;
    hide HostFromStream, LoadPayload, LoadBlockList, Flags, HasCompress, HasMemSize, HasRaw, HasContinue, HasXbzrle, HasHook;
    var h := HostFromStream(blocks, s, st, addr, HasContinue(Flags(w)));
    assert |h.0.ram| == |blocks|;
    if h.1.Some? {
      AddressInRam(blocks, h.0.ram, h.1.value, addr);
    }
    hide Shaped;
  }

  /** An entry of the block list is taken if and only if name and length are
      there and the first block of that name has that length. */
  lemma EntryIff(blocks: seq<Block>, s: seq<Byte>, pos: nat, total: nat)
    requires 0 < total
    ensures var o := LoadBlockList(blocks, s, pos, total);
      o.ok <==>
        && pos < |s| && pos + 9 + s[pos] as int <= |s|
        && var at := pos + 1 + s[pos] as int;
           var length := Value8(s[at..at + 8]);
           && (exists k | 0 <= k < |blocks| ::
                 && blocks[k].id == CString(s[pos + 1..at]) && blocks[k].length == length
                 && forall m | 0 <= m < k :: blocks[m].id != blocks[k].id)
           && LoadBlockList(blocks, s, at + 8, (total - length) % TWO64).ok
  {
    hide CString, Value8, FromBe;
    if pos < |s| && pos + 9 + s[pos] as int <= |s| {
      var at := pos + 1 + s[pos] as int;
      Word8(s[at..at + 8]);
    }
  }
}
