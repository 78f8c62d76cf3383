/** ram_load and its helpers in the receiver's own form, and the sender's
    save_block_hdr, each proved against the stream functions. */
module RamLoader {
  import opened Common
  import opened Numbers
  import opened RamStream
  import Xbzrle

  class RamLoader {
    const blocks: seq<Block>
    const stream: seq<Byte>
    var pos: nat
    var block: Option<nat>      // the static block of host_from_stream_offset
    var ram: Ram

    ghost function St(): State
      reads this
    {
      State(pos, block, ram)
    }

    constructor (blocks: seq<Block>, stream: seq<Byte>, ram: Ram)
      requires Shaped(blocks, ram)
      ensures this.blocks == blocks && this.stream == stream && St() == State(0, None, ram) && Valid(blocks, St())
    {
      this.blocks, this.stream, this.ram, pos, block := blocks, stream, ram, 0, None;
    }

    /** qemu_get_buffer */
    method Get(n: nat) returns (r: Option<seq<Byte>>)
      modifies this`pos
      ensures r == GetBytes(stream, old(pos), n) && pos == old(pos) + (if r.Some? then n else 0)
    {
      r := GetBytes(stream, pos, n);
      if r.Some? {
        pos := pos + n;
      }
    }

    /** The walk over the block list. */
    method FindBlock(id: seq<Byte>, above: int) returns (r: Option<nat>)
      ensures r == Lookup(blocks, id, above, 0)
    {
      var i := 0;
      while i < |blocks|
        invariant 0 <= i <= |blocks| && Lookup(blocks, id, above, 0) == Lookup(blocks, id, above, i)
      {
        if blocks[i].id == id && blocks[i].length > above {
          return Some(i);
        }
        i := i + 1;
      }
      return None;
    }

    /** A length byte and a name; the position moves only past a whole name. */
    method ReadName() returns (r: Option<seq<Byte>>)
      modifies this`pos
      ensures r == GetName(stream, old(pos)) && pos == old(pos) + (if r.Some? then 1 + |r.value| else 0)
    {
      if pos >= |stream| {
        return None;
      }
      r := GetBytes(stream, pos + 1, stream[pos]);
      if r.Some? {
        pos := pos + 1 + |r.value|;
      }
    }

    method HostFromStreamOffset(addr: nat, cont: bool) returns (at: Option<nat>)
      requires Valid(blocks, St())
      modifies this`pos, this`block
      ensures (St(), at) == HostFromStream(blocks, stream, old(St()), addr, cont)
    {
      hide Lookup, CString, GetName;
      if cont {
        if block.None? || blocks[block.value].length <= addr {
          return None;
        }
        return block;
      }
      var id := ReadName();
      if id.None? {
        return None;
      }
      block := FindBlock(CString(id.value), addr);
      return block;
    }

    /** load_xbzrle; the delta is decoded over the page where it lies, so that
        a malformed one leaves the page partly overwritten. */
    method LoadXbzrle(i: nat, j: nat) returns (ok: bool)
      requires Valid(blocks, St()) && i < |blocks| && i < |ram| && j < |ram[i]|
      modifies this`pos, this`ram
      ensures LoadPayload(blocks, stream, old(St()), i, j, XBZRLE) == if ok then Good(St()) else Bad(St())
    {
      hide Xbzrle.DecodeInto, Shaped, FromBe;
      var h := Get(3);
      if h.None? {
        return false;
      }
      var len := FromBe(h.value[1..]);
      if h.value[0] != 1 || len > PAGE {
        return false;
      }
      var delta := Get(len);
      if delta.None? {
        return false;
      }
      var page := ram[i][j];
      var host := new Byte[|page|](k requires 0 <= k < |page| => page[k]);
      assert host[..] == page;
      var ret := Xbzrle.DecodeBuffer(delta.value, host);
      ram := Poke(ram, i, j, host[..]);
      return ret != -1;
    }

    /** A page record after its header word. */
    method LoadPage(w: nat, flag: int) returns (ok: bool)
      requires Valid(blocks, St()) && flag in {COMPRESS, RAW, XBZRLE}
      modifies this`pos, this`ram, this`block
      ensures LoadRecord(blocks, stream, old(St()), w, flag) == if ok then Good(St()) else Bad(St())
    {
      hide Shaped, HostFromStream, GetBytes, Flags;
      var addr := w - Flags(w);
      var at := HostFromStreamOffset(addr, HasContinue(Flags(w)));
      if at.None? {
        return false;
      }
      AddressInRam(blocks, ram, at.value, addr);
      var i, j := at.value, addr / PAGE;
      if flag == COMPRESS {
        var ch := Get(1);
        if ch.None? {
          return false;
        }
        ram := Poke(ram, i, j, Fill(ch.value[0]));
      } else if flag == RAW {
        var page := Get(PAGE);
        if page.None? {
          return false;
        }
        ram := Poke(ram, i, j, page.value);
      } else {
        ok := LoadXbzrle(i, j);
        return;
      }
      return true;
    }

    /** The block list of a MEM_SIZE record. */
    method ReadBlockList(size: nat) returns (ok: bool)
      requires pos <= |stream|
      modifies this`pos
      ensures LoadBlockList(blocks, stream, old(pos), size) == Listed(ok, pos)
      ensures pos <= |stream|
    {
      hide Lookup, CString, GetName, FromBe;
      var total: nat := size;
      while total != 0
        invariant pos <= |stream|
        invariant LoadBlockList(blocks, stream, pos, total) == LoadBlockList(blocks, stream, old(pos), size)
        decreases |stream| - pos
      {
        ghost var start := pos;
        var id := ReadName();
        if id.None? {
          return false;
        }
        var b := Get(8);
        if b.None? {
          return false;
        }
        var length := FromBe(b.value);
        var found := FindBlock(CString(id.value), -1);
        if found.None? || blocks[found.value].length != length {
          return false;
        }
        total := (total - length) % TWO64;
      }
      return true;
    }

    /** One round of the loop, after the header word. */
    method LoadNext(w: nat) returns (ok: bool)
      requires Valid(blocks, St()) && pos <= |stream|
      modifies this`pos, this`ram, this`block
      ensures LoadItem(blocks, stream, old(St()), w) == if ok then Good(St()) else Bad(St())
      ensures ok ==> old(pos) <= pos <= |stream|
    {
      hide Shaped, LoadRecord, LoadBlockList, HasMemSize, HasCompress, HasRaw, HasXbzrle, HasHook, Flags;
      if HasMemSize(Flags(w)) {
        ok := ReadBlockList(w - Flags(w));
        if !ok {
          return;
        }
      }
      if HasCompress(Flags(w)) {
        ok := LoadPage(w, COMPRESS);
      } else if HasRaw(Flags(w)) {
        ok := LoadPage(w, RAW);
      } else if HasXbzrle(Flags(w)) {
        ok := LoadPage(w, XBZRLE);
      } else {
        ok := !HasHook(Flags(w));
      }
    }

    /** ram_load */
    method RamLoad() returns (ok: bool)
      requires Valid(blocks, St()) && pos <= |stream|
      modifies this`pos, this`ram, this`block
      ensures Load(blocks, stream, old(St())) == if ok then Good(St()) else Bad(St())
    {
      hide Shaped, LoadItem, HasEos, Flags, FromBe;
      var eos := false;
      while !eos
        invariant Valid(blocks, St()) && pos <= |stream|
        invariant if eos then Load(blocks, stream, old(St())) == Good(St())
          else Load(blocks, stream, old(St())) == Load(blocks, stream, St())
        decreases if eos then 0 else 1 + |stream| - pos
      {
        var b := Get(8);
        if b.None? {
          return false;
        }
        var w := FromBe(b.value);
        ok := LoadNext(w);
        if !ok {
          return;
        }
        eos := HasEos(Flags(w));
      }
      return true;
    }
  }

  /** The sender's end: what it has put, and the block it put last. */
  class RamWriter {
    const blocks: seq<Block>
    var out: seq<Byte>
    var lastSent: Option<nat>       // last_sent_block

    constructor (blocks: seq<Block>)
      ensures this.blocks == blocks && out == [] && lastSent == None
    {
      this.blocks, out, lastSent := blocks, [], None;
    }

    /** save_block_hdr and the payload after it */
    method SaveRecord(r: Record) returns (bytesSent: nat)
      requires RecordOk(blocks, r)
      modifies this
      ensures out == old(out) + RecordBytes(blocks, r, old(lastSent)) && lastSent == Some(r.block)
      ensures bytesSent == |RecordBytes(blocks, r, old(lastSent))|
    {
      hide Be;
      var cont := lastSent == Some(r.block);
      var put := Be(r.offset * PAGE + (if cont then CONTINUE else 0) + Flag(r.payload), 8);
      bytesSent := 8;
      if !cont {
        var id := blocks[r.block].id;
        put := put + ([|id|] + id);
        bytesSent := bytesSent + 1 + |id|;
      }
      assert put == HeaderBytes(blocks, r, cont);
      match r.payload {
        case Zeros =>
          put := put + [0];
          bytesSent := bytesSent + 1;
        case Raw(page) =>
          put := put + page;
          bytesSent := bytesSent + PAGE;
        case Delta(delta) =>
          put := put + ([1] + Be(|delta|, 2) + delta);
          bytesSent := bytesSent + |delta| + 1 + 2;
      }
      out := out + put;
      lastSent := Some(r.block);
    }
  }
}
