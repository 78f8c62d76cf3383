/** The byte stream between ram_save_block and ram_load: record headers, the
    CONTINUE shorthand, the block list, and the receiver that parses them.
    The receiver is given on arbitrary input; a read past the end of the
    stream is an error. */
module RamStream {
  import opened Common
  import opened Numbers
  import Xbzrle

  const PAGE: int := 4096

  type Page = seq<Byte>
  type Ram = seq<seq<Page>>

  /** Block names are C strings of at most 255 bytes; lengths are in bytes. */
  datatype Block = Block(id: seq<Byte>, length: nat)

  predicate IdOk(id: seq<Byte>) { |id| <= 255 && forall i | 0 <= i < |id| :: id[i] != 0 }

  // ---- the sender's bytes

  const COMPRESS: int := 0x02
  const MEM_SIZE: int := 0x04
  const RAW: int := 0x08
  const EOS: int := 0x10
  const CONTINUE: int := 0x20
  const XBZRLE: int := 0x40

  datatype Payload = Zeros | Raw(page: Page) | Delta(delta: seq<Byte>)

  /** A page sent: block, offset in pages, and what is sent for it. */
  datatype Record = Record(block: nat, offset: nat, payload: Payload)

  function Flag(p: Payload): int {
    match p case Zeros => COMPRESS case Raw(_) => RAW case Delta(_) => XBZRLE
  }

  predicate RecordOk(blocks: seq<Block>, r: Record) {
    && r.block < |blocks| && r.offset * PAGE < blocks[r.block].length < TWO64
    && IdOk(blocks[r.block].id)
    && match r.payload
       case Zeros => true
       case Raw(page) => |page| == PAGE
       case Delta(delta) => |delta| <= PAGE
  }

  /** save_block_hdr */
  function HeaderBytes(blocks: seq<Block>, r: Record, cont: bool): seq<Byte>
    requires RecordOk(blocks, r)
  {
    var id := blocks[r.block].id;
    Be(r.offset * PAGE + (if cont then CONTINUE else 0) + Flag(r.payload), 8) + if cont then [] else [|id|] + id
  }

  function PayloadBytes(p: Payload): seq<Byte> {
    match p
    case Zeros => [0]
    case Raw(page) => page
    case Delta(delta) => [1] + Be(|delta|, 2) + delta
  }

  function RecordBytes(blocks: seq<Block>, r: Record, lastSent: Option<nat>): seq<Byte>
    requires RecordOk(blocks, r)
  {
    HeaderBytes(blocks, r, lastSent == Some(r.block)) + PayloadBytes(r.payload)
  }

  // ---- the receiver

  datatype State = State(pos: nat, block: Option<nat>, ram: Ram)

  /** What is left when the receiver gave up or came to its end. */
  datatype Outcome = Good(st: State) | Bad(st: State)

  predicate Shaped(blocks: seq<Block>, ram: Ram) {
    && |ram| == |blocks|
    && (forall i | 0 <= i < |ram| :: |ram[i]| * PAGE == blocks[i].length)
    && (forall i, j | 0 <= i < |ram| && 0 <= j < |ram[i]| :: |ram[i][j]| == PAGE)
  }

  predicate Valid(blocks: seq<Block>, st: State) {
    Shaped(blocks, st.ram) && (st.block.Some? ==> st.block.value < |blocks|)
  }

  function GetBytes(s: seq<Byte>, pos: nat, n: nat): (r: Option<seq<Byte>>)
    ensures r.Some? ==> |r.value| == n && pos + n <= |s|
  {
    if pos + n <= |s| then Some(s[pos..pos + n]) else None
  }

  /** The C string at the start of a buffer. */
  function CString(b: seq<Byte>): (r: seq<Byte>)
    ensures r <= b && (forall i | 0 <= i < |r| :: r[i] != 0) && (|r| < |b| ==> b[|r|] == 0)
  {
    if b == [] || b[0] == 0 then [] else [b[0]] + CString(b[1..])
  }

  /** The first block of that name that is longer than `above`. */
  function Lookup(blocks: seq<Block>, id: seq<Byte>, above: int, i: nat): (r: Option<nat>)
    ensures r.Some? ==> i <= r.value < |blocks| && blocks[r.value].id == id && blocks[r.value].length > above
    ensures r.Some? ==> forall k | i <= k < r.value :: !(blocks[k].id == id && blocks[k].length > above)
    ensures r.None? ==> forall k | i <= k < |blocks| :: !(blocks[k].id == id && blocks[k].length > above)
    decreases |blocks| - i
  {
    if i >= |blocks| then None
    else if blocks[i].id == id && blocks[i].length > above then Some(i)
    else Lookup(blocks, id, above, i + 1)
  }

  /** A name in the stream: a length byte and that many bytes. */
  function GetName(s: seq<Byte>, pos: nat): (r: Option<seq<Byte>>)
    ensures r.Some? ==> pos + 1 + |r.value| <= |s|
  {
    if pos >= |s| then None else GetBytes(s, pos + 1, s[pos])
  }

  /** host_from_stream_offset; the block it found, if any */
  function HostFromStream(blocks: seq<Block>, s: seq<Byte>, st: State, addr: nat, cont: bool): (r: (State, Option<nat>))
    requires Valid(blocks, st)
    ensures Valid(blocks, r.0) && r.0.ram == st.ram && r.0.pos >= st.pos && (st.pos <= |s| ==> r.0.pos <= |s|)
    ensures r.1.Some? ==> r.1.value < |blocks| && addr < blocks[r.1.value].length && r.0.block == r.1
  {
    if cont then
      if st.block.None? || blocks[st.block.value].length <= addr then (st, None) else (st, st.block)
    else
      match GetName(s, st.pos)
      case None => (st, None)
      case Some(id) =>
        var found := Lookup(blocks, CString(id), addr, 0);
        (st.(pos := st.pos + 1 + |id|, block := found), found)
  }

  /** The page at an address of a block, replaced. */
  function Poke(ram: Ram, i: nat, j: nat, page: Page): Ram
    requires i < |ram| && j < |ram[i]|
  {
    ram[i := ram[i][j := page]]
  }

  function Fill(ch: Byte): Page { seq(PAGE, _ => ch) }

  lemma AddressInRam(blocks: seq<Block>, ram: Ram, i: nat, addr: nat)
    requires Shaped(blocks, ram) && i < |blocks| && addr < blocks[i].length && addr % PAGE == 0
    ensures i < |ram| && addr / PAGE < |ram[i]|
  {
  }

  lemma PokeShaped(blocks: seq<Block>, ram: Ram, i: nat, j: nat, page: Page)
    requires Shaped(blocks, ram) && i < |ram| && j < |ram[i]| && |page| == PAGE
    ensures Shaped(blocks, Poke(ram, i, j, page))
  {
  }

  /** The payload of a record at page j of block i. */
  function LoadPayload(blocks: seq<Block>, s: seq<Byte>, st: State, i: nat, j: nat, flag: int): (r: Outcome)
    requires Valid(blocks, st) && i < |blocks| && j < |st.ram[i]|
    ensures Valid(blocks, r.st) && r.st.pos >= st.pos && (st.pos <= |s| ==> r.st.pos <= |s|)
  {
    if flag == COMPRESS then
      match GetBytes(s, st.pos, 1)
      case None => Bad(st)
      case Some(b) =>
        PokeShaped(blocks, st.ram, i, j, Fill(b[0]));
        Good(st.(pos := st.pos + 1, ram := Poke(st.ram, i, j, Fill(b[0]))))
    else if flag == RAW then
      match GetBytes(s, st.pos, PAGE)
      case None => Bad(st)
      case Some(page) =>
        PokeShaped(blocks, st.ram, i, j, page);
        Good(st.(pos := st.pos + PAGE, ram := Poke(st.ram, i, j, page)))
    else
      // load_xbzrle
      match GetBytes(s, st.pos, 3)
      case None => Bad(st)
      case Some(h) =>
        var st1 := st.(pos := st.pos + 3);
        var len := FromBe(h[1..]);
        if h[0] != 1 || len > PAGE then Bad(st1)
        else match GetBytes(s, st1.pos, len)
          case None => Bad(st1)
          case Some(delta) =>
            var st2 := st1.(pos := st1.pos + len);
            var decoding := Xbzrle.DecodeInto(delta, 0, st.ram[i][j], 0);
            Xbzrle.DecodeKeepsSize(delta, 0, st.ram[i][j], 0);
            PokeShaped(blocks, st.ram, i, j, decoding.page);
            var st3 := st2.(ram := Poke(st.ram, i, j, decoding.page));
            if decoding.ok then Good(st3) else Bad(st3)
  }

  /** The flags of a header word. */
  function Flags(w: nat): (f: nat)
    ensures f <= w && f < PAGE && (w - f) % PAGE == 0
  {
    w % PAGE
  }

  predicate HasCompress(flags: nat) { flags / 0x02 % 2 == 1 }
  predicate HasMemSize(flags: nat) { flags / 0x04 % 2 == 1 }
  predicate HasRaw(flags: nat) { flags / 0x08 % 2 == 1 }
  predicate HasEos(flags: nat) { flags / 0x10 % 2 == 1 }
  predicate HasContinue(flags: nat) { flags / 0x20 % 2 == 1 }
  predicate HasXbzrle(flags: nat) { flags / 0x40 % 2 == 1 }
  predicate HasHook(flags: nat) { flags / 0x80 % 2 == 1 }

  /** The flag the chain of tests acts on. */
  function Selected(flags: nat): Option<int> {
    if HasCompress(flags) then Some(COMPRESS)
    else if HasRaw(flags) then Some(RAW)
    else if HasXbzrle(flags) then Some(XBZRLE)
    else None
  }

  /** A page record after its header word. */
  function LoadRecord(blocks: seq<Block>, s: seq<Byte>, st: State, w: nat, flag: int): (r: Outcome)
    requires Valid(blocks, st)
    ensures Valid(blocks, r.st) && r.st.pos >= st.pos && (st.pos <= |s| ==> r.st.pos <= |s|)
  {
    var addr := w - Flags(w);
    var h := HostFromStream(blocks, s, st, addr, HasContinue(Flags(w)));
    if h.1.None? then Bad(h.0)
    else
      AddressInRam(blocks, st.ram, h.1.value, addr);
      LoadPayload(blocks, s, h.0, h.1.value, addr / PAGE, flag)
  }

  /** Whether a block list is accepted, and how far it was read. */
  datatype Listed = Listed(ok: bool, pos: nat)

  /** The block list after a MEM_SIZE word: every block named must be known
      here, with the same length. */
  function LoadBlockList(blocks: seq<Block>, s: seq<Byte>, pos: nat, total: nat): (r: Listed)
    ensures r.pos >= pos && (pos <= |s| ==> r.pos <= |s|)
    decreases |s| - pos
  {
    if total == 0 then Listed(true, pos)
    else
      match GetName(s, pos)
      case None => Listed(false, pos)
      case Some(id) =>
        var pos1 := pos + 1 + |id|;
        match GetBytes(s, pos1, 8)
        case None => Listed(false, pos1)
        case Some(b) =>
          var length := FromBe(b);
          var found := Lookup(blocks, CString(id), -1, 0);
          if found.None? || blocks[found.value].length != length then Listed(false, pos1 + 8)
          else LoadBlockList(blocks, s, pos1 + 8, (total - length) % TWO64)
  }

  /** One round of ram_load's loop, after its header word was read. */
  function LoadItem(blocks: seq<Block>, s: seq<Byte>, st: State, w: nat): (r: Outcome)
    requires Valid(blocks, st)
    ensures Valid(blocks, r.st) && r.st.pos >= st.pos && (st.pos <= |s| ==> r.st.pos <= |s|)
  {
    var listed := if HasMemSize(Flags(w)) then LoadBlockList(blocks, s, st.pos, w - Flags(w)) else Listed(true, st.pos);
    var st1 := st.(pos := listed.pos);
    if !listed.ok then Bad(st1)
    else
      match Selected(Flags(w))
      case Some(flag) => LoadRecord(blocks, s, st1, w, flag)
      case None => if HasHook(Flags(w)) then Bad(st1) else Good(st1)
  }

  /** ram_load: items up to and including one with EOS. */
  function Load(blocks: seq<Block>, s: seq<Byte>, st: State): (r: Outcome)
    requires Valid(blocks, st)
    ensures Valid(blocks, r.st)
    decreases |s| - st.pos
  {
    match GetBytes(s, st.pos, 8)
    case None => Bad(st)
    case Some(b) =>
      var r := LoadItem(blocks, s, st.(pos := st.pos + 8), FromBe(b));
      if r.Bad? || HasEos(Flags(FromBe(b))) then r else Load(blocks, s, r.st)
  }
}
