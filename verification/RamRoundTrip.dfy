/** Whatever the sender puts on the stream, the receiver reads back: each
    payload lands at the block and offset the sender meant, over any number of
    sections, because the block the receiver remembers is always the one the
    sender last named. */
module RamRoundTrip {
  import opened Common
  import opened Numbers
  import opened RamStream
  import Xbzrle

  // ---- bytes at a position of the stream

  predicate At(s: seq<Byte>, pos: nat, b: seq<Byte>) {
    pos + |b| <= |s| && s[pos..pos + |b|] == b
  }

  lemma AtSplit(s: seq<Byte>, pos: nat, a: seq<Byte>, b: seq<Byte>)
    requires At(s, pos, a + b)
    ensures At(s, pos, a) && At(s, pos + |a|, b)
  {
    var ab := s[pos..pos + |a + b|];
    assert s[pos..pos + |a|] == ab[..|a|] == a;
    assert s[pos + |a|..pos + |a| + |b|] == ab[|a|..] == b;
  }

  lemma AtRead(s: seq<Byte>, pos: nat, b: seq<Byte>)
    requires At(s, pos, b)
    ensures GetBytes(s, pos, |b|) == Some(b)
  {
  }

  lemma AtByte(s: seq<Byte>, pos: nat, b: Byte)
    requires At(s, pos, [b])
    ensures pos < |s| && s[pos] == b
  {
    assert s[pos] == s[pos..pos + 1][0];
  }

  lemma NameRead(s: seq<Byte>, pos: nat, id: seq<Byte>)
    requires IdOk(id) && At(s, pos, [|id|] + id)
    ensures GetName(s, pos) == Some(id) && CString(id) == id
  {
    hide CString, At;
    AtSplit(s, pos, [|id|], id);
    AtByte(s, pos, |id|);
    AtRead(s, pos + 1, id);
    CStringWhole(id);
  }

  lemma {:induction false} CStringWhole(id: seq<Byte>)
    requires forall i | 0 <= i < |id| :: id[i] != 0
    ensures CString(id) == id
  {
    if id != [] {
      CStringWhole(id[1..]);
    }
  }

  // ---- the two block lists

  /** The receiver's block of that name. */
  function Peer(blocks: seq<Block>, id: seq<Byte>): Option<nat> { Lookup(blocks, id, -1, 0) }

  predicate Known(blocks: seq<Block>, b: Block) {
    var f := Peer(blocks, b.id);
    f.Some? && blocks[f.value].length == b.length
  }

  predicate AllKnown(blocks: seq<Block>, sender: seq<Block>) {
    forall i | 0 <= i < |sender| :: Known(blocks, sender[i])
  }

  lemma {:induction false} FirstIsFirst(blocks: seq<Block>, id: seq<Byte>, addr: int, i: nat, f: nat)
    requires i <= f < |blocks| && blocks[f].id == id && blocks[f].length > addr
    requires forall k | i <= k < f :: blocks[k].id != id
    ensures Lookup(blocks, id, addr, i) == Some(f)
    decreases f - i
  {
    if i < f {
      FirstIsFirst(blocks, id, addr, i + 1, f);
    }
  }

  /** For a known block, the lookup that also asks for room finds the same. */
  lemma LookupKnown(blocks: seq<Block>, b: Block, addr: nat)
    requires Known(blocks, b) && addr < b.length
    ensures Lookup(blocks, b.id, addr, 0) == Peer(blocks, b.id)
  {
    var f := Peer(blocks, b.id).value;
    assert forall k | 0 <= k < f :: blocks[k].id != b.id;
    FirstIsFirst(blocks, b.id, addr, 0, f);
  }

  /** Distinct blocks of the sender have distinct peers. */
  lemma PeersDistinct(blocks: seq<Block>, sender: seq<Block>, i: nat, j: nat)
    requires AllKnown(blocks, sender) && i < |sender| && j < |sender| && sender[i].id != sender[j].id
    ensures Peer(blocks, sender[i].id) != Peer(blocks, sender[j].id)
  {
    assert Known(blocks, sender[i]) && Known(blocks, sender[j]);
  }

  /** The receiver's remembered block is the one last named. */
  predicate InStep(blocks: seq<Block>, sender: seq<Block>, lastSent: Option<nat>, block: Option<nat>) {
    lastSent.Some? ==> lastSent.value < |sender| && block == Peer(blocks, sender[lastSent.value].id)
  }

  // ---- what a record means

  /** What storing a payload over `page` leaves there, and whether it was
      well formed. */
  function Rewritten(p: Payload, page: Page): Xbzrle.Decoding {
    match p
    case Zeros => Xbzrle.Decoding(true, Fill(0))
    case Raw(whole) => Xbzrle.Decoding(true, whole)
    case Delta(delta) => Xbzrle.DecodeInto(delta, 0, page, 0)
  }

  /** The page a payload leaves in place of `page`. */
  function NewPage(p: Payload, page: Page): Option<Page> {
    var r := Rewritten(p, page);
    if r.ok then Some(r.page) else None
  }

  /** Memory after a record was stored where the sender meant it. */
  function Applied(blocks: seq<Block>, sender: seq<Block>, ram: Ram, r: Record): Option<Ram>
    requires RecordOk(sender, r) && Known(blocks, sender[r.block]) && Shaped(blocks, ram)
  {
    var i := Peer(blocks, sender[r.block].id).value;
    OffsetInRam(blocks, sender, ram, r);
    var page := NewPage(r.payload, ram[i][r.offset]);
    if page.None? then None else Some(Poke(ram, i, r.offset, page.value))
  }

  lemma OffsetInRam(blocks: seq<Block>, sender: seq<Block>, ram: Ram, r: Record)
    requires RecordOk(sender, r) && Known(blocks, sender[r.block]) && Shaped(blocks, ram)
    ensures r.offset < |ram[Peer(blocks, sender[r.block].id).value]|
  {
  }

  /** The receiver once it has dealt with the record, n bytes on. */
  function After(blocks: seq<Block>, sender: seq<Block>, st: State, r: Record, n: nat): Outcome
    requires RecordOk(sender, r) && Known(blocks, sender[r.block]) && Valid(blocks, st)
  {
    var peer := Peer(blocks, sender[r.block].id);
    OffsetInRam(blocks, sender, st.ram, r);
    var page := Rewritten(r.payload, st.ram[peer.value][r.offset]);
    var st1 := State(st.pos + n, peer, Poke(st.ram, peer.value, r.offset, page.page));
    if page.ok then Good(st1) else Bad(st1)
  }

  // ---- one record

  function HeaderWord(r: Record, cont: bool): nat {
    r.offset * PAGE + (if cont then CONTINUE else 0) + Flag(r.payload)
  }

  lemma LowBits(k: nat, c: nat)
    requires c < PAGE
    ensures Flags(k * PAGE + c) == c
  {
  }

  lemma HeaderWordRead(blocks: seq<Block>, r: Record, cont: bool)
    requires RecordOk(blocks, r) && blocks[r.block].length % PAGE == 0
    ensures var w := HeaderWord(r, cont);
      w < TWO64 && w - Flags(w) == r.offset * PAGE && HasContinue(Flags(w)) == cont &&
      Selected(Flags(w)) == Some(Flag(r.payload)) && !HasMemSize(Flags(w)) && !HasEos(Flags(w))
  {
    LowBits(r.offset, (if cont then CONTINUE else 0) + Flag(r.payload));
    hide Flags;
  }

  /** The name, or the shorthand for it, leads to the peer. */
  lemma HostRead(blocks: seq<Block>, sender: seq<Block>, s: seq<Byte>, st: State, r: Record, lastSent: Option<nat>)
    requires Valid(blocks, st) && RecordOk(sender, r) && Known(blocks, sender[r.block])
    requires InStep(blocks, sender, lastSent, st.block)
    requires var id := sender[r.block].id; lastSent != Some(r.block) ==> At(s, st.pos, [|id|] + id)
    ensures var id := sender[r.block].id;
      var cont := lastSent == Some(r.block);
      HostFromStream(blocks, s, st, r.offset * PAGE, cont) ==
      (st.(pos := st.pos + (if cont then 0 else 1 + |id|), block := Peer(blocks, id)), Peer(blocks, id))
  {
    hide CString, GetName, Shaped, IdOk;
    var b := sender[r.block];
    LookupKnown(blocks, b, r.offset * PAGE);
    if lastSent != Some(r.block) {
      NameRead(s, st.pos, b.id);
    }
  }

  lemma PayloadRead(blocks: seq<Block>, s: seq<Byte>, st: State, i: nat, j: nat, p: Payload)
    requires Valid(blocks, st) && i < |blocks| && j < |st.ram[i]| && At(s, st.pos, PayloadBytes(p))
    requires p.Raw? ==> |p.page| == PAGE
    requires p.Delta? ==> |p.delta| <= PAGE
    ensures var page := Rewritten(p, st.ram[i][j]);
      var st1 := st.(pos := st.pos + |PayloadBytes(p)|, ram := Poke(st.ram, i, j, page.page));
      LoadPayload(blocks, s, st, i, j, Flag(p)) == if page.ok then Good(st1) else Bad(st1)
  {
    hide Xbzrle.DecodeInto, Shaped, FromBe, Be;
    match p
    case Zeros => AtRead(s, st.pos, [0]);
    case Raw(page) => AtRead(s, st.pos, page);
    case Delta(delta) =>
      var h := [1] + Be(|delta|, 2);
      AtSplit(s, st.pos, h, delta);
      AtRead(s, st.pos, h);
      AtRead(s, st.pos + 3, delta);
      assert h[1..] == Be(|delta|, 2);
      Be16RoundTrip(|delta|);
  }

  /** The receiver's step on a record the sender just put. */
  lemma RecordRead(blocks: seq<Block>, sender: seq<Block>, s: seq<Byte>, st: State, r: Record, lastSent: Option<nat>)
    requires Valid(blocks, st) && RecordOk(sender, r) && Known(blocks, sender[r.block])
    requires InStep(blocks, sender, lastSent, st.block) && sender[r.block].length % PAGE == 0
    requires At(s, st.pos, RecordBytes(sender, r, lastSent))
    ensures GetBytes(s, st.pos, 8).Some?
    ensures var w := FromBe(GetBytes(s, st.pos, 8).value);
      !HasEos(Flags(w)) &&
      LoadItem(blocks, s, st.(pos := st.pos + 8), w) == After(blocks, sender, st, r, |RecordBytes(sender, r, lastSent)|)
  {
    hide Be, FromBe, GetBytes, At, Shaped, HostFromStream, LoadPayload, PayloadBytes, Lookup, HasEos, HasMemSize,
         HasContinue, Selected, IdOk, LoadBlockList, Flags;
    var id := sender[r.block].id;
    var cont := lastSent == Some(r.block);
    var w := HeaderWord(r, cont);
    IdLength(id);
    var name: seq<Byte> := if cont then [] else [|id|] + id;
    var head := HeaderBytes(sender, r, cont);
    AtSplit(s, st.pos, head, PayloadBytes(r.payload));
    AtSplit(s, st.pos, Be(w, 8), name);
    AtRead(s, st.pos, Be(w, 8));
    HeaderWordRead(sender, r, cont);
    Be64RoundTrip(w);
    var st8 := st.(pos := st.pos + 8);
    HostRead(blocks, sender, s, st8, r, lastSent);
    OffsetInRam(blocks, sender, st.ram, r);
    var sth := HostFromStream(blocks, s, st8, r.offset * PAGE, cont).0;
    PayloadRead(blocks, s, sth, Peer(blocks, id).value, r.offset, r.payload);
    assert (r.offset * PAGE) / PAGE == r.offset;
  }

  // ---- a section: records, then EOS

  predicate RecordsOk(sender: seq<Block>, rs: seq<Record>) {
    forall k | 0 <= k < |rs| :: RecordOk(sender, rs[k])
  }

  function SectionBytes(sender: seq<Block>, rs: seq<Record>, lastSent: Option<nat>): seq<Byte>
    requires RecordsOk(sender, rs)
  {
    if rs == [] then Be(EOS, 8)
    else RecordBytes(sender, rs[0], lastSent) + SectionBytes(sender, rs[1..], Some(rs[0].block))
  }

  /** The sender's last_sent_block once it has sent the records. */
  function LastSent(rs: seq<Record>, lastSent: Option<nat>): Option<nat> {
    if rs == [] then lastSent else Some(rs[|rs| - 1].block)
  }

  predicate Whole(blocks: seq<Block>, sender: seq<Block>) {
    AllKnown(blocks, sender) && forall i | 0 <= i < |sender| :: sender[i].length % PAGE == 0
  }

  /** Memory after all records, or nothing if one cannot be decoded. */
  function AppliedAll(blocks: seq<Block>, sender: seq<Block>, ram: Ram, rs: seq<Record>): Option<Ram>
    requires RecordsOk(sender, rs) && Whole(blocks, sender) && Shaped(blocks, ram)
    decreases |rs|
  {
    if rs == [] then Some(ram)
    else
      assert RecordOk(sender, rs[0]) && Known(blocks, sender[rs[0].block]);
      var next := Applied(blocks, sender, ram, rs[0]);
      if next.None? then None
      else
        AppliedShaped(blocks, sender, ram, rs[0]);
        AppliedAll(blocks, sender, next.value, rs[1..])
  }

  lemma AppliedShaped(blocks: seq<Block>, sender: seq<Block>, ram: Ram, r: Record)
    requires RecordOk(sender, r) && Known(blocks, sender[r.block]) && Shaped(blocks, ram)
    ensures var next := Applied(blocks, sender, ram, r); next.Some? ==> Shaped(blocks, next.value)
  {
    hide Xbzrle.DecodeInto, Lookup;
    var i := Peer(blocks, sender[r.block].id).value;
    OffsetInRam(blocks, sender, ram, r);
    var page := NewPage(r.payload, ram[i][r.offset]);
    if page.Some? {
      if r.payload.Delta? {
        Xbzrle.DecodeKeepsSize(r.payload.delta, 0, ram[i][r.offset], 0);
      }
      PokeShaped(blocks, ram, i, r.offset, page.value);
    }
  }

  /** The outcome of one ram_load call on a section the sender wrote. */
  predicate Reads(blocks: seq<Block>, sender: seq<Block>, st: State, rs: seq<Record>, lastSent: Option<nat>, n: nat, o: Outcome)
    requires RecordsOk(sender, rs) && Whole(blocks, sender) && Valid(blocks, st)
  {
    var ram := AppliedAll(blocks, sender, st.ram, rs);
    if ram.None? then o.Bad?
    else o.Good? && o.st.pos == st.pos + n && o.st.ram == ram.value && InStep(blocks, sender, LastSent(rs, lastSent), o.st.block)
  }

  lemma EndRead(blocks: seq<Block>, s: seq<Byte>, st: State)
    requires Valid(blocks, st) && At(s, st.pos, Be(EOS, 8))
    ensures Load(blocks, s, st) == Good(st.(pos := st.pos + 8))
  {
    hide Be, FromBe, GetBytes, At, Shaped, LoadRecord, LoadBlockList;
    AtRead(s, st.pos, Be(EOS, 8));
    Be64RoundTrip(EOS);
    LowBits(0, EOS);
  }

  lemma {:induction false} SectionRead(blocks: seq<Block>, sender: seq<Block>, s: seq<Byte>, st: State, rs: seq<Record>, lastSent: Option<nat>)
    requires RecordsOk(sender, rs) && Whole(blocks, sender) && Valid(blocks, st)
    requires InStep(blocks, sender, lastSent, st.block) && At(s, st.pos, SectionBytes(sender, rs, lastSent))
    ensures Reads(blocks, sender, st, rs, lastSent, |SectionBytes(sender, rs, lastSent)|, Load(blocks, s, st))
    decreases |rs|
  {
    hide Shaped, Lookup, LoadItem, At, Be, FromBe, GetBytes, HasEos, Flags, RecordBytes, RecordOk;
    if rs == [] {
      EndRead(blocks, s, st);
    } else {
      var r, rest := rs[0], rs[1..];
      assert RecordOk(sender, r);
      RecordBlock(sender, r);
      assert Known(blocks, sender[r.block]);
      AtSplit(s, st.pos, RecordBytes(sender, r, lastSent), SectionBytes(sender, rest, Some(r.block)));
      RecordRead(blocks, sender, s, st, r, lastSent);
      var o := After(blocks, sender, st, r, |RecordBytes(sender, r, lastSent)|);
      if o.Good? {
        AppliedShaped(blocks, sender, st.ram, r);
        SectionRead(blocks, sender, s, o.st, rest, Some(r.block));
      }
    }
  }

  lemma RecordBlock(sender: seq<Block>, r: Record)
    requires RecordOk(sender, r)
    ensures r.block < |sender|
  {
  }

  // ---- the block list

  function Total(sender: seq<Block>): nat {
    if sender == [] then 0 else sender[0].length + Total(sender[1..])
  }

  predicate Listable(sender: seq<Block>) {
    forall i | 0 <= i < |sender| :: IdOk(sender[i].id) && 0 < sender[i].length && sender[i].length % PAGE == 0
  }

  function ListBytes(sender: seq<Block>): seq<Byte>
    requires Listable(sender)
  {
    if sender == [] then []
    else
      assert Listable(sender[1..]) by {
        assert forall i | 0 <= i < |sender[1..]| :: sender[1..][i] == sender[i + 1];
      }
      ItemBytes(sender[0]) + ListBytes(sender[1..])
  }

  lemma {:induction false} TotalPositive(sender: seq<Block>)
    requires Listable(sender)
    ensures Total(sender) % PAGE == 0 && (sender != [] ==> Total(sender) > 0)
  {
    if sender != [] {
      assert forall i | 0 <= i < |sender[1..]| :: sender[1..][i] == sender[i + 1];
      TotalPositive(sender[1..]);
    }
  }

  function ItemBytes(b: Block): seq<Byte>
    requires IdOk(b.id)
  {
    [|b.id|] + b.id + Be(b.length, 8)
  }

  lemma ItemRead(blocks: seq<Block>, s: seq<Byte>, pos: nat, b: Block, total: nat)
    requires IdOk(b.id) && 0 < b.length <= total < TWO64 && At(s, pos, ItemBytes(b))
    ensures LoadBlockList(blocks, s, pos, total) ==
      var next := pos + |ItemBytes(b)|;
      if Known(blocks, b) then LoadBlockList(blocks, s, next, total - b.length) else Listed(false, next)
  {
    hide Lookup, Be, FromBe, At, GetBytes, GetName, CString, IdOk;
    IdLength(b.id);
    var name := [|b.id|] + b.id;
    AtSplit(s, pos, name, Be(b.length, 8));
    NameRead(s, pos, b.id);
    AtRead(s, pos + |name|, Be(b.length, 8));
    Be64RoundTrip(b.length);
  }

  /** The list is accepted exactly when every block in it is known. */
  lemma {:induction false} ListRead(blocks: seq<Block>, sender: seq<Block>, s: seq<Byte>, pos: nat)
    requires Listable(sender) && Total(sender) < TWO64 && At(s, pos, ListBytes(sender))
    ensures var r := LoadBlockList(blocks, s, pos, Total(sender));
      r.ok == AllKnown(blocks, sender) && (r.ok ==> r.pos == pos + |ListBytes(sender)|)
    decreases |sender|
  {
    hide At, ItemBytes, Known, AllKnown, Listable, LoadBlockList, IdOk;
    if sender == [] {
      NoBlocks(blocks, s, pos);
    } else {
      ListSplit(blocks, sender);
      var b, rest := sender[0], sender[1..];
      AtSplit(s, pos, ItemBytes(b), ListBytes(rest));
      ItemRead(blocks, s, pos, b, Total(sender));
      ListRead(blocks, rest, s, pos + |ItemBytes(b)|);
    }
  }

  lemma NoBlocks(blocks: seq<Block>, s: seq<Byte>, pos: nat)
    ensures LoadBlockList(blocks, s, pos, 0) == Listed(true, pos) && AllKnown(blocks, [])
  {
  }

  lemma ListSplit(blocks: seq<Block>, sender: seq<Block>)
    requires sender != [] && Listable(sender)
    ensures Listable(sender[1..]) && IdOk(sender[0].id) && 0 < sender[0].length
    ensures AllKnown(blocks, sender) <==> Known(blocks, sender[0]) && AllKnown(blocks, sender[1..])
  {
    hide Known, IdOk;
    var rest := sender[1..];
    assert forall i | 0 <= i < |rest| :: rest[i] == sender[i + 1];
    assert forall i | 0 < i < |sender| :: sender[i] == rest[i - 1];
  }

  lemma IdLength(id: seq<Byte>)
    requires IdOk(id)
    ensures |id| <= 255
  {
  }

  /** What ram_save_setup puts: the total, the list, EOS. */
  function SetupBytes(sender: seq<Block>): seq<Byte>
    requires Listable(sender)
  {
    Be(Total(sender) + MEM_SIZE, 8) + ListBytes(sender) + Be(EOS, 8)
  }

  lemma MemSizeWord(total: nat)
    requires total % PAGE == 0
    ensures var w := total + MEM_SIZE;
      HasMemSize(Flags(w)) && Selected(Flags(w)) == None && !HasHook(Flags(w)) && !HasEos(Flags(w)) && w - Flags(w) == total
  {
    LowBits(total / PAGE, MEM_SIZE);
    hide Flags;
  }

  /** The receiver's step on the block list. */
  lemma MemSizeRead(blocks: seq<Block>, sender: seq<Block>, s: seq<Byte>, st: State)
    requires Valid(blocks, st) && Listable(sender) && Total(sender) + MEM_SIZE < TWO64 && At(s, st.pos, ListBytes(sender))
    ensures var w := Total(sender) + MEM_SIZE;
      var r := LoadItem(blocks, s, st, w);
      !HasEos(Flags(w)) && (if AllKnown(blocks, sender) then r == Good(st.(pos := st.pos + |ListBytes(sender)|)) else r.Bad?)
  {
    hide At, ListBytes, Total, HasMemSize, Selected, HasHook, HasEos, Flags, Shaped, AllKnown, LoadBlockList, LoadRecord;
    TotalPositive(sender);
    MemSizeWord(Total(sender));
    ListRead(blocks, sender, s, st.pos);
  }

  /** Setup succeeds exactly when the destination has every block. */
  lemma SetupRead(blocks: seq<Block>, sender: seq<Block>, s: seq<Byte>, st: State)
    requires Valid(blocks, st) && Listable(sender) && Total(sender) + MEM_SIZE < TWO64 && At(s, st.pos, SetupBytes(sender))
    ensures if AllKnown(blocks, sender) then Load(blocks, s, st) == Good(st.(pos := st.pos + |SetupBytes(sender)|))
      else Load(blocks, s, st).Bad?
  {
    hide Be, FromBe, At, GetBytes, LoadItem, ListBytes, Total, HasEos, Flags, Shaped, AllKnown, Listable;
    var word, list := Be(Total(sender) + MEM_SIZE, 8), ListBytes(sender);
    Be64RoundTrip(Total(sender) + MEM_SIZE);
    AtSplit(s, st.pos, word + list, Be(EOS, 8));
    AtSplit(s, st.pos, word, list);
    AtRead(s, st.pos, word);
    MemSizeRead(blocks, sender, s, st.(pos := st.pos + 8));
    if AllKnown(blocks, sender) {
      EndRead(blocks, s, st.(pos := st.pos + 8 + |list|));
    }
  }

  // ---- the whole stream

  predicate SectionsOk(sender: seq<Block>, sections: seq<seq<Record>>) {
    forall k | 0 <= k < |sections| :: RecordsOk(sender, sections[k])
  }

  function SectionsBytes(sender: seq<Block>, sections: seq<seq<Record>>, lastSent: Option<nat>): seq<Byte>
    requires SectionsOk(sender, sections)
  {
    if sections == [] then []
    else SectionBytes(sender, sections[0], lastSent) + SectionsBytes(sender, sections[1..], LastSent(sections[0], lastSent))
  }

  /** n calls of ram_load, up to the first that fails. */
  function LoadTimes(blocks: seq<Block>, s: seq<Byte>, st: State, n: nat): Outcome
    requires Valid(blocks, st)
    decreases n
  {
    if n == 0 then Good(st)
    else
      var r := Load(blocks, s, st);
      if r.Bad? then r else LoadTimes(blocks, s, r.st, n - 1)
  }

  function AppliedSections(blocks: seq<Block>, sender: seq<Block>, ram: Ram, sections: seq<seq<Record>>): Option<Ram>
    requires SectionsOk(sender, sections) && Whole(blocks, sender) && Shaped(blocks, ram)
    decreases |sections|
  {
    if sections == [] then Some(ram)
    else
      assert RecordsOk(sender, sections[0]);
      var next := AppliedAll(blocks, sender, ram, sections[0]);
      if next.None? then None
      else
        AllShaped(blocks, sender, ram, sections[0]);
        AppliedSections(blocks, sender, next.value, sections[1..])
  }

  lemma {:induction false} AllShaped(blocks: seq<Block>, sender: seq<Block>, ram: Ram, rs: seq<Record>)
    requires RecordsOk(sender, rs) && Whole(blocks, sender) && Shaped(blocks, ram)
    ensures var next := AppliedAll(blocks, sender, ram, rs); next.Some? ==> Shaped(blocks, next.value)
    decreases |rs|
  {
    hide Shaped, Applied, RecordOk, Known;
    if rs != [] {
      assert RecordOk(sender, rs[0]);
      RecordBlock(sender, rs[0]);
      assert Known(blocks, sender[rs[0].block]);
      AppliedShaped(blocks, sender, ram, rs[0]);
      var next := Applied(blocks, sender, ram, rs[0]);
      if next.Some? {
        AllShaped(blocks, sender, next.value, rs[1..]);
      }
    }
  }

  lemma {:induction false} SectionsRead(blocks: seq<Block>, sender: seq<Block>, s: seq<Byte>, st: State,
                                        sections: seq<seq<Record>>, lastSent: Option<nat>)
    requires SectionsOk(sender, sections) && Whole(blocks, sender) && Valid(blocks, st)
    requires InStep(blocks, sender, lastSent, st.block) && At(s, st.pos, SectionsBytes(sender, sections, lastSent))
    ensures var o := LoadTimes(blocks, s, st, |sections|);
      var ram := AppliedSections(blocks, sender, st.ram, sections);
      if ram.None? then o.Bad? else o.Good? && o.st.ram == ram.value && o.st.pos == st.pos + |SectionsBytes(sender, sections, lastSent)|
    decreases |sections|
  {
    hide Shaped, Load, At, SectionBytes, InStep, AppliedAll, Whole;
    if sections != [] {
      var rs := sections[0];
      assert RecordsOk(sender, rs);
      AtSplit(s, st.pos, SectionBytes(sender, rs, lastSent), SectionsBytes(sender, sections[1..], LastSent(rs, lastSent)));
      SectionRead(blocks, sender, s, st, rs, lastSent);
      var o := Load(blocks, s, st);
      if o.Good? {
        SectionsRead(blocks, sender, s, o.st, sections[1..], LastSent(rs, lastSent));
      }
    }
  }

  /** Round trip: setup, then any number of sections with any records.  If
      some block is unknown at the destination setup fails; otherwise memory
      ends as if each record had been stored where the sender meant it. */
  lemma StreamRoundTrip(blocks: seq<Block>, sender: seq<Block>, s: seq<Byte>, st: State, sections: seq<seq<Record>>)
    requires Valid(blocks, st) && Listable(sender) && Total(sender) + MEM_SIZE < TWO64 && SectionsOk(sender, sections)
    requires At(s, st.pos, SetupBytes(sender) + SectionsBytes(sender, sections, None))
    ensures var o := LoadTimes(blocks, s, st, 1 + |sections|);
      if !AllKnown(blocks, sender) then o.Bad?
      else
        var ram := AppliedSections(blocks, sender, st.ram, sections);
        if ram.None? then o.Bad? else o.Good? && o.st.ram == ram.value
  {
    hide Shaped, Load, At, SetupBytes, SectionsBytes, AppliedSections, AllKnown, IdOk;
    AtSplit(s, st.pos, SetupBytes(sender), SectionsBytes(sender, sections, None));
    SetupRead(blocks, sender, s, st);
    if AllKnown(blocks, sender) {
      SectionsRead(blocks, sender, s, Load(blocks, s, st).st, sections, None);
    }
  }

  // ---- the format, spelled out

  /** A record: a word of the page's offset in its block with the flags in its
      low bits, the length and name of the block unless the record before was
      for the same one, and the payload. */
  predicate Formatted(b: seq<Byte>, id: seq<Byte>, cont: bool, r: Record) {
    var at := if cont then 8 else 9 + |id|;
    && |b| >= at
    && Value8(b[..8]) == r.offset * 4096 + (if cont then 0x20 else 0) +
                         (if r.payload.Zeros? then 0x02 else if r.payload.Raw? then 0x08 else 0x40)
    && (!cont ==> b[8] == |id| && b[9..at] == id)
    && PayloadFormatted(b[at..], r.payload)
  }

  /** A zero byte, a page, or a one, a length of two bytes and a delta. */
  predicate PayloadFormatted(b: seq<Byte>, p: Payload) {
    match p
    case Zeros => b == [0]
    case Raw(page) => b == page
    case Delta(delta) => |b| >= 3 && b[0] == 1 && Value2(b[1..3]) == |delta| && b[3..] == delta
  }

  lemma PayloadFormat(p: Payload)
    requires p.Delta? ==> |p.delta| <= PAGE
    ensures PayloadFormatted(PayloadBytes(p), p)
  {
    hide Be, Value2;
    if p.Delta? {
      Be2Is(|p.delta|);
      var b := PayloadBytes(p);
      assert b[1..3] == Be(|p.delta|, 2) && b[3..] == p.delta;
    }
  }

  lemma RecordFormat(sender: seq<Block>, r: Record, lastSent: Option<nat>)
    requires RecordOk(sender, r) && sender[r.block].length % PAGE == 0
    ensures Formatted(RecordBytes(sender, r, lastSent), sender[r.block].id, lastSent == Some(r.block), r)
  {
    hide Be, Value8, IdOk, PayloadFormatted, PayloadBytes;
    IdLength(sender[r.block].id);
    var id, cont := sender[r.block].id, lastSent == Some(r.block);
    var w := HeaderWord(r, cont);
    HeaderWordRead(sender, r, cont);
    Be8Is(w);
    PayloadFormat(r.payload);
    var name: seq<Byte> := if cont then [] else [|id|] + id;
    var b := RecordBytes(sender, r, lastSent);
    var tail := PayloadBytes(r.payload);
    assert b == Be(w, 8) + name + tail;
    var at := 8 + |name|;
    assert b[..8] == Be(w, 8);
    assert b[8..at] == name;
    assert b[at..] == tail;
    if !cont {
      assert b[9..at] == name[1..] == id;
    }
  }

  /** Setup: a word of the total length with the flag 4, the blocks by name and
      length, and the end-of-section word 16. */
  lemma SetupFormat(sender: seq<Block>)
    requires Listable(sender) && Total(sender) + MEM_SIZE < TWO64
    ensures var b := SetupBytes(sender);
      |b| >= 16 && Value8(b[..8]) == Total(sender) + 0x04 && b[8..|b| - 8] == ListBytes(sender) && b[|b| - 8..] == [0, 0, 0, 0, 0, 0, 0, 0x10]
  {
    hide Value8, ListBytes, Total;
    Be8Is(Total(sender) + MEM_SIZE);
    EndWord();
    hide Be;
    var b, word, list := SetupBytes(sender), Be(Total(sender) + MEM_SIZE, 8), ListBytes(sender);
    assert b == word + list + Be(EOS, 8);
    assert b[..8] == word && b[8..|b| - 8] == list && b[|b| - 8..] == Be(EOS, 8);
  }

  lemma EndWord()
    ensures Be(EOS, 8) == [0, 0, 0, 0, 0, 0, 0, 0x10]
  {
    assert Be(0, 4) == [0, 0, 0, 0];
    BeSplit4(EOS, 4);
    assert Be(0x10, 4) == [0, 0, 0, 0x10];
  }

  lemma ItemFormat(b: Block)
    requires IdOk(b.id) && b.length < TWO64
    ensures var i := ItemBytes(b);
      |i| == 9 + |b.id| && i[0] == |b.id| && i[1..1 + |b.id|] == b.id && Value8(i[1 + |b.id|..]) == b.length
  {
    hide Be, Value8;
    Be8Is(b.length);
    assert ItemBytes(b)[1 + |b.id|..] == Be(b.length, 8);
  }
}
