/** The pre-copy machine hands its records straight to the destination; here
    that is what the stream does: for every run of a migration, ram_load on
    the bytes that were sent leaves the memory the machine says the
    destination has - after a completed migration, the source's. */
module RamDelivery {
  import opened Common
  import opened MigrationBitmap
  import opened RamStream
  import opened RamRoundTrip
  import opened PrecopyWire
  import PrecopyRuns
  import Precopy
  import Xbzrle

  /** The blocks of the machine, as the sender names them. */
  predicate Named(cfg: Precopy.Config, sender: seq<Block>) {
    && |sender| == |cfg.blocks|
    && (forall i | 0 <= i < |sender| :: sender[i].length == cfg.blocks[i].pages * PAGE < TWO64 && IdOk(sender[i].id))
    && (forall i, j | 0 <= i < j < |sender| :: sender[i].id != sender[j].id)
  }

  predicate Paired(cfg: Precopy.Config, blocks: seq<Block>, sender: seq<Block>, ram: Ram) {
    Named(cfg, sender) && AllKnown(blocks, sender) && Shaped(blocks, ram) && Layout(cfg.blocks)
  }

  function PeerOf(blocks: seq<Block>, sender: seq<Block>, i: nat): nat
    requires i < |sender| && Known(blocks, sender[i])
  {
    Peer(blocks, sender[i].id).value
  }

  lemma PeerPages(cfg: Precopy.Config, blocks: seq<Block>, sender: seq<Block>, ram: Ram, i: nat)
    requires Paired(cfg, blocks, sender, ram) && i < |sender|
    ensures Known(blocks, sender[i]) && PeerOf(blocks, sender, i) < |ram|
    ensures |ram[PeerOf(blocks, sender, i)]| == cfg.blocks[i].pages
  {
    assert Known(blocks, sender[i]);
  }

  /** Page j of block i is the same in both views. */
  predicate Same(cfg: Precopy.Config, blocks: seq<Block>, sender: seq<Block>, dst: map<int, Page>, ram: Ram, i: nat, j: nat)
    requires Paired(cfg, blocks, sender, ram) && i < |cfg.blocks| && j < cfg.blocks[i].pages
  {
    PeerPages(cfg, blocks, sender, ram, i);
    var p := cfg.blocks[i].base + j;
    p in dst && dst[p] == ram[PeerOf(blocks, sender, i)][j]
  }

  predicate Mirrors(cfg: Precopy.Config, blocks: seq<Block>, sender: seq<Block>, dst: map<int, Page>, ram: Ram)
    requires Paired(cfg, blocks, sender, ram)
  {
    forall i, j | 0 <= i < |cfg.blocks| && 0 <= j < cfg.blocks[i].pages :: Same(cfg, blocks, sender, dst, ram, i, j)
  }

  /** The wire form of a payload whose bytes are already fixed. */
  function OnWire(p: Precopy.Payload): Payload
    requires !p.LatePage?
  {
    match p
    case ZeroPage => Zeros
    case WholePage(page) => Raw(page)
    case DeltaPage(delta) => Delta(delta)
  }

  lemma PageApart(cfg: Precopy.Config, i: nat, j: nat, i': nat, j': nat)
    requires Layout(cfg.blocks) && i < |cfg.blocks| && i' < |cfg.blocks|
    requires j < cfg.blocks[i].pages && j' < cfg.blocks[i'].pages && (i, j) != (i', j')
    ensures cfg.blocks[i].base + j != cfg.blocks[i'].base + j'
  {
    if i < i' {
      assert Disjoint(cfg.blocks[i], cfg.blocks[i']);
    } else if i' < i {
      assert Disjoint(cfg.blocks[i'], cfg.blocks[i]);
    }
  }

  function ToRecord(r: Precopy.Send): Record
    requires !r.payload.LatePage?
  {
    Record(r.block, r.offset, OnWire(r.payload))
  }

  /** Storing a record in the machine's memory is what storing the parsed
      record does to the receiver's. */
  lemma DeliveredAsStored(cfg: Precopy.Config, blocks: seq<Block>, sender: seq<Block>, m: map<int, Page>, ram: Ram,
                          r: Precopy.Send)
    requires cfg.pageSize == PAGE && Paired(cfg, blocks, sender, ram) && Mirrors(cfg, blocks, sender, m, ram)
    requires SizedRecord(cfg, r) && Stored(cfg, m, r).Some?
    ensures !r.payload.LatePage? && RecordOk(sender, ToRecord(r)) && Known(blocks, sender[r.block])
    ensures var next := Applied(blocks, sender, ram, ToRecord(r));
      next.Some? && Paired(cfg, blocks, sender, next.value) && Mirrors(cfg, blocks, sender, Stored(cfg, m, r).value, next.value)
  {
    var i, j := r.block, r.offset;
    OnWireOk(cfg, blocks, sender, ram, r);
    PeerPages(cfg, blocks, sender, ram, i);
    assert Same(cfg, blocks, sender, m, ram, i, j);
    var page := ram[PeerOf(blocks, sender, i)][j];
    RemadeOnWire(cfg, r.payload, page);
    AppliedShaped(blocks, sender, ram, ToRecord(r));
    hide Xbzrle.DecodeInto, RecordOk, Shaped, Named, AllKnown, Layout, Remade;
    var x := Remade(cfg, r.payload, page).value;
    var ram' := Applied(blocks, sender, ram, ToRecord(r)).value;
    assert ram' == Poke(ram, PeerOf(blocks, sender, i), j, x);
    forall i', j' | 0 <= i' < |cfg.blocks| && 0 <= j' < cfg.blocks[i'].pages
      ensures Same(cfg, blocks, sender, Stored(cfg, m, r).value, ram', i', j')
    {
      OtherPage(cfg, blocks, sender, m, Stored(cfg, m, r).value, ram, i, j, i', j', x);
    }
  }

  lemma OnWireOk(cfg: Precopy.Config, blocks: seq<Block>, sender: seq<Block>, ram: Ram, r: Precopy.Send)
    requires cfg.pageSize == PAGE && Paired(cfg, blocks, sender, ram) && SizedRecord(cfg, r) && Placed(cfg, r)
    requires !r.payload.LatePage?
    ensures RecordOk(sender, ToRecord(r)) && Known(blocks, sender[r.block])
  {
    hide Shaped, Layout;
    assert sender[r.block].length == cfg.blocks[r.block].pages * PAGE;
  }

  lemma RemadeOnWire(cfg: Precopy.Config, payload: Precopy.Payload, page: Page)
    requires cfg.pageSize == PAGE && !payload.LatePage?
    ensures NewPage(OnWire(payload), page) == Remade(cfg, payload, page)
  {
    assert Fill(0) == Precopy.Zero(cfg);
    hide Xbzrle.DecodeInto;
  }

  lemma OtherPage(cfg: Precopy.Config, blocks: seq<Block>, sender: seq<Block>, dst: map<int, Page>, dst': map<int, Page>,
                  ram: Ram, i: nat, j: nat, i': nat, j': nat, page: Page)
    requires Paired(cfg, blocks, sender, ram) && Mirrors(cfg, blocks, sender, dst, ram)
    requires i < |cfg.blocks| && j < cfg.blocks[i].pages && i' < |cfg.blocks| && j' < cfg.blocks[i'].pages
    requires dst' == dst[cfg.blocks[i].base + j := page]
    requires Known(blocks, sender[i]) && PeerOf(blocks, sender, i) < |ram| && j < |ram[PeerOf(blocks, sender, i)]|
    requires Paired(cfg, blocks, sender, Poke(ram, PeerOf(blocks, sender, i), j, page))
    ensures Same(cfg, blocks, sender, dst', Poke(ram, PeerOf(blocks, sender, i), j, page), i', j')
  {
    assert Same(cfg, blocks, sender, dst, ram, i', j');
    PeerPages(cfg, blocks, sender, ram, i);
    PeerPages(cfg, blocks, sender, ram, i');
    if (i, j) != (i', j') {
      PageApart(cfg, i, j, i', j');
    }
    if i != i' {
      PeersDistinct(blocks, sender, i, i');
    }
  }

  // ---- sequences of records

  ghost predicate OnTheWire(cfg: Precopy.Config, w: seq<Precopy.Send>) {
    forall k | 0 <= k < |w| :: SizedRecord(cfg, w[k]) && !w[k].payload.LatePage?
  }

  function ToRecords(w: seq<Precopy.Send>): seq<Record>
    requires forall k | 0 <= k < |w| :: !w[k].payload.LatePage?
  {
    if w == [] then [] else [ToRecord(w[0])] + ToRecords(w[1..])
  }

  /** Memory stays mirrored through any sequence of records that can be
      stored. */
  lemma {:induction false} ReplayedAsApplied(cfg: Precopy.Config, blocks: seq<Block>, sender: seq<Block>, m: map<int, Page>, ram: Ram,
                                             w: seq<Precopy.Send>)
    requires cfg.pageSize == PAGE && Paired(cfg, blocks, sender, ram) && Mirrors(cfg, blocks, sender, m, ram)
    requires OnTheWire(cfg, w) && Replay(cfg, m, w).Some?
    ensures RecordsOk(sender, ToRecords(w)) && Whole(blocks, sender)
    ensures var next := AppliedAll(blocks, sender, ram, ToRecords(w));
      next.Some? && Paired(cfg, blocks, sender, next.value) && Mirrors(cfg, blocks, sender, Replay(cfg, m, w).value, next.value)
    decreases |w|
  {
    PairedWhole(cfg, blocks, sender, ram);
    hide Stored, Paired, Mirrors, Applied, RecordOk, Known, Whole, SizedRecord;
    if w != [] {
      DeliveredAsStored(cfg, blocks, sender, m, ram, w[0]);
      var ram' := Applied(blocks, sender, ram, ToRecord(w[0])).value;
      ReplayedAsApplied(cfg, blocks, sender, Stored(cfg, m, w[0]).value, ram', w[1..]);
      assert ToRecords(w)[1..] == ToRecords(w[1..]);
      forall k | 0 <= k < |ToRecords(w)|
        ensures RecordOk(sender, ToRecords(w)[k])
      {
        if k > 0 {
          assert ToRecords(w)[k] == ToRecords(w[1..])[k - 1];
        }
      }
      PairedShaped(cfg, blocks, sender, ram);
    }
  }

  lemma PairedShaped(cfg: Precopy.Config, blocks: seq<Block>, sender: seq<Block>, ram: Ram)
    requires Paired(cfg, blocks, sender, ram)
    ensures Shaped(blocks, ram)
  {
  }

  lemma PairedWhole(cfg: Precopy.Config, blocks: seq<Block>, sender: seq<Block>, ram: Ram)
    requires Paired(cfg, blocks, sender, ram)
    ensures Whole(blocks, sender) && Listable(sender)
  {
    hide Shaped, AllKnown;
    forall i | 0 <= i < |sender|
      ensures sender[i].length % PAGE == 0 && 0 < sender[i].length
    {
      assert sender[i].length == cfg.blocks[i].pages * PAGE;
    }
  }

  // ---- sections

  /** The records of all sections, in order. */
  function Flat(sections: seq<seq<Record>>): seq<Record> {
    if sections == [] then [] else sections[0] + Flat(sections[1..])
  }

  lemma {:induction false} AppliedInTwo(blocks: seq<Block>, sender: seq<Block>, ram: Ram, a: seq<Record>, b: seq<Record>)
    requires RecordsOk(sender, a) && RecordsOk(sender, b) && RecordsOk(sender, a + b) && Whole(blocks, sender) && Shaped(blocks, ram)
    ensures AppliedAll(blocks, sender, ram, a + b) ==
      var half := AppliedAll(blocks, sender, ram, a);
      if half.None? then None else (AllShaped(blocks, sender, ram, a); AppliedAll(blocks, sender, half.value, b))
    decreases |a|
  {
    hide RecordOk, Known, Applied, Shaped;
    if a == [] {
      assert a + b == b;
    } else {
      assert (a + b)[1..] == a[1..] + b && (a + b)[0] == a[0];
      assert RecordOk(sender, a[0]);
      RecordBlock(sender, a[0]);
      assert Known(blocks, sender[a[0].block]);
      AppliedShaped(blocks, sender, ram, a[0]);
      var next := Applied(blocks, sender, ram, a[0]);
      if next.Some? {
        AppliedInTwo(blocks, sender, next.value, a[1..], b);
      }
    }
  }

  /** How the records are cut into sections does not matter. */
  lemma {:induction false} FlatApplied(blocks: seq<Block>, sender: seq<Block>, ram: Ram, sections: seq<seq<Record>>)
    requires SectionsOk(sender, sections) && Whole(blocks, sender) && Shaped(blocks, ram)
    ensures RecordsOk(sender, Flat(sections))
    ensures AppliedSections(blocks, sender, ram, sections) == AppliedAll(blocks, sender, ram, Flat(sections))
    decreases |sections|
  {
    hide RecordOk, Whole, Shaped, AppliedAll;
    if sections == [] {
      NoRecords(blocks, sender, ram);
    } else {
      assert RecordsOk(sender, sections[0]);
      AllShaped(blocks, sender, ram, sections[0]);
      var half := AppliedAll(blocks, sender, ram, sections[0]);
      FlatOk(sender, sections[1..]);
      AppliedInTwo(blocks, sender, ram, sections[0], Flat(sections[1..]));
      if half.Some? {
        FlatApplied(blocks, sender, half.value, sections[1..]);
      }
    }
  }

  lemma NoRecords(blocks: seq<Block>, sender: seq<Block>, ram: Ram)
    requires Whole(blocks, sender) && Shaped(blocks, ram)
    ensures AppliedAll(blocks, sender, ram, []) == Some(ram)
  {
  }

  lemma {:induction false} FlatOk(sender: seq<Block>, sections: seq<seq<Record>>)
    requires SectionsOk(sender, sections)
    ensures RecordsOk(sender, Flat(sections))
  {
    hide RecordOk;
    if sections != [] {
      assert RecordsOk(sender, sections[0]);
      FlatOk(sender, sections[1..]);
    }
  }

  // ---- the whole migration

  /** The bytes of a migration: the block list, then the records of the run in
      sections, however they are cut. */
  ghost predicate Transmits(cfg: Precopy.Config, sender: seq<Block>, w: seq<Precopy.Send>, sections: seq<seq<Record>>, s: seq<Byte>) {
    && OnTheWire(cfg, w) && SectionsOk(sender, sections) && Flat(sections) == ToRecords(w)
    && Listable(sender) && Total(sender) + MEM_SIZE < TWO64
    && At(s, 0, SetupBytes(sender) + SectionsBytes(sender, sections, None))
  }

  /** Every run of the machine, through the bytes: ram_load accepts all of
      them and leaves the destination's memory as the machine has it. */
  lemma MigrationDelivered(cfg: Precopy.Config, src: map<int, Page>, dst: map<int, Page>, log: set<int>,
                           es: seq<Precopy.Event>, t: Precopy.State, late: nat -> Page,
                           blocks: seq<Block>, sender: seq<Block>, ram: Ram, sections: seq<seq<Record>>, s: seq<Byte>)
    requires cfg.Valid() && src.Keys == dst.Keys == RamPages(cfg.blocks) && Precopy.Sized(cfg, src) && Precopy.Sized(cfg, dst)
    requires (forall q | q in log :: 0 <= q) && cfg.pageSize == PAGE && (forall k :: |late(k)| == PAGE)
    requires PrecopyRuns.Leads(cfg, Precopy.Initial(cfg, src, dst, log), es, t) && t.pending == {}
    requires Paired(cfg, blocks, sender, ram) && Mirrors(cfg, blocks, sender, dst, ram)
    requires Transmits(cfg, sender, Wire(cfg, Precopy.Initial(cfg, src, dst, log), es, t, [], late), sections, s)
    ensures var o := LoadTimes(blocks, s, State(0, None, ram), 1 + |sections|);
      o.Good? && Paired(cfg, blocks, sender, o.st.ram) && Mirrors(cfg, blocks, sender, t.dst, o.st.ram)
    ensures t.lastSent == LastSent(Flat(sections), None)
  {
    hide RamPages, PrecopyRuns.Leads, Wire, Replay, Mirrors, Paired, LoadTimes, At, SetupBytes, SectionsBytes, Listable, Total,
         AppliedSections, AppliedAll, Whole, SectionsOk, RecordsOk, OnTheWire, Copied, AllKnown, Precopy.Initial;
    var w := Wire(cfg, Precopy.Initial(cfg, src, dst, log), es, t, [], late);
    WireMakesMemory(cfg, src, dst, log, es, t, late);
    ReplayedAsApplied(cfg, blocks, sender, dst, ram, w);
    PairedShaped(cfg, blocks, sender, ram);
    FlatApplied(blocks, sender, ram, sections);
    WholeKnown(blocks, sender);
    LastOnWire(cfg, t, w);
    StreamRoundTrip(blocks, sender, s, State(0, None, ram), sections);
  }

  /** The block the machine remembers for the CONTINUE shorthand is the one the
      bytes were made with. */
  lemma LastOnWire(cfg: Precopy.Config, t: Precopy.State, w: seq<Precopy.Send>)
    requires OnTheWire(cfg, w) && Copied(cfg, t, w)
    ensures t.lastSent == LastSent(ToRecords(w), None)
  {
    hide SizedRecord;
    if w != [] {
      RecordAt(w, |w| - 1);
    }
  }

  lemma {:induction false} RecordAt(w: seq<Precopy.Send>, k: nat)
    requires k < |w| && forall i | 0 <= i < |w| :: !w[i].payload.LatePage?
    ensures |ToRecords(w)| == |w| && ToRecords(w)[k] == ToRecord(w[k])
    decreases |w|
  {
    if |w| > 1 {
      RecordAt(w[1..], if k > 0 then k - 1 else 0);
    }
  }

  lemma WholeKnown(blocks: seq<Block>, sender: seq<Block>)
    requires Whole(blocks, sender)
    ensures AllKnown(blocks, sender)
  {
  }

  /** A completed migration, end to end: the guest stopped, nothing marked and
      nothing left in the queue, what ram_load has read out of the bytes is
      the guest's memory. */
  lemma MigratedMemory(cfg: Precopy.Config, src: map<int, Page>, dst: map<int, Page>, log: set<int>,
                       es: seq<Precopy.Event>, t: Precopy.State, late: nat -> Page,
                       blocks: seq<Block>, sender: seq<Block>, ram: Ram, sections: seq<seq<Record>>, s: seq<Byte>)
    requires cfg.Valid() && src.Keys == dst.Keys == RamPages(cfg.blocks) && Precopy.Sized(cfg, src) && Precopy.Sized(cfg, dst)
    requires (forall q | q in log :: 0 <= q) && cfg.pageSize == PAGE && (forall k :: |late(k)| == PAGE)
    requires PrecopyRuns.Leads(cfg, Precopy.Initial(cfg, src, dst, log), es, t) && t.pending == {}
    requires t.stopped && t.bitmap * RamPages(cfg.blocks) == {}
    requires Paired(cfg, blocks, sender, ram) && Mirrors(cfg, blocks, sender, dst, ram)
    requires Transmits(cfg, sender, Wire(cfg, Precopy.Initial(cfg, src, dst, log), es, t, [], late), sections, s)
    ensures var o := LoadTimes(blocks, s, State(0, None, ram), 1 + |sections|);
      o.Good? && Paired(cfg, blocks, sender, o.st.ram) && Mirrors(cfg, blocks, sender, t.src, o.st.ram)
  {
    hide RamPages, PrecopyRuns.Leads, Wire, Mirrors, Paired, LoadTimes, Transmits, Precopy.Initial, PrecopyRuns.Inv;
    MigrationDelivered(cfg, src, dst, log, es, t, late, blocks, sender, ram, sections, s);
    PrecopyRuns.InitialInv(cfg, src, dst, log);
    PrecopyRuns.RunKeeps(cfg, Precopy.Initial(cfg, src, dst, log), es, t);
    PrecopyRuns.AllSettled(cfg, t);
  }
}
