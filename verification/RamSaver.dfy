/** ram_save_block and the functions it calls, updating the migration globals
    in place, proved to take the passes of the state machine. */
module RamSaver {
  import opened Common
  import opened MigrationBitmap
  import opened Precopy
  import opened BitmapWords
  import opened PrecopySafety
  import opened PrecopySweep
  import opened PrecopyRuns
  import opened PrecopyEnds
  import Xbzrle

  /** The number of pages in blocks, not counting gaps between them. */
  method CountPages(blocks: seq<RamBlock>) returns (total: int)
    requires Layout(blocks)
    ensures total == |RamPages(blocks)|
  {
    total := 0;
    assert RamPages(blocks[..0]) == {};
    hide RamPages, Layout;
    for i := 0 to |blocks|
      invariant total == |RamPages(blocks[..i])|
    {
      OneMoreBlock(blocks, i);
      total := total + blocks[i].pages;
    }
    assert blocks[..|blocks|] == blocks;
  }

  class RamSaver {
    const cfg: Config
    const bitmap: array<bool>              // migration_bitmap
    var dirtyPages: int                    // migration_dirty_pages
    var bulk: bool                         // ram_bulk_stage
    var seen: Option<nat>                  // last_seen_block
    var offset: nat                        // last_offset
    var lastSent: Option<nat>              // last_sent_block
    var cache: map<int, Page>              // XBZRLE.cache
    var stopped: bool                      // last_stage
    // what surrounds the migration thread
    var src: map<int, Page>
    var dst: map<int, Page>
    var pending: set<int>
    var log: set<int>
    var sent: seq<Send>

    ghost function Abs(): State
      reads this, bitmap
    {
      State(src, dst, pending, log, Bits(bitmap[..]), dirtyPages, bulk, seen, offset, lastSent, cache, stopped, sent)
    }

    /** The bitmap reaches to the end of every block. */
    ghost predicate Valid() {
      forall i | 0 <= i < |cfg.blocks| :: cfg.blocks[i].End() <= bitmap.Length
    }

    /** ram_save_setup, up to its first sync */
    constructor (cfg: Config, src: map<int, Page>, dst: map<int, Page>, log: set<int>)
      requires Layout(cfg.blocks)
      ensures Valid() && this.cfg == cfg && fresh(bitmap) && Abs() == Initial(cfg, src, dst, log)
    {
      hide RamPages, LastPage, Bits, Range, Layout;
      var n := LastPage(cfg.blocks);
      this.cfg, this.src, this.dst, this.log := cfg, src, dst, log;
      bitmap := new bool[n](_ => true);
      bulk, seen, offset, lastSent, cache := true, None, 0, None, map[];
      stopped, pending, sent := false, {}, [];
      var total := CountPages(cfg.blocks);
      dirtyPages := total;
      new;
      AllBits(bitmap[..]);
      BlocksEnd(cfg.blocks);
    }

    /** find_next_bit */
    method FindNextBit(size: int, nr: nat) returns (x: int)
      requires size <= bitmap.Length
      ensures x == FindNext(Bits(bitmap[..]), size, nr)
    {
      x := nr;
      while x < size && !bitmap[x]
        invariant nr <= x
        invariant FindNext(Bits(bitmap[..]), size, x) == FindNext(Bits(bitmap[..]), size, nr)
      {
        x := x + 1;
      }
      x := Min(x, size);
    }

    /** migration_bitmap_find_and_reset_dirty */
    method FindAndResetDirty(b: RamBlock, start: nat) returns (next: int)
      requires b.End() <= bitmap.Length
      modifies this`dirtyPages, bitmap
      ensures var f := FindAndReset(old(Abs()), b, start); next == f.next && Abs() == f.state
    {
      hide FindNext;
      var nr := b.base + start;
      var found;
      if bulk && nr > b.base {
        found := nr + 1;
      } else {
        found := FindNextBit(b.End(), nr);
        assert found >= 0;
      }
      if found < b.End() {
        ghost var before := bitmap[..];
        bitmap[found] := false;
        dirtyPages := dirtyPages - 1;
        ClearedBit(before, bitmap[..], found);
      }
      next := found - b.base;
    }

    /** The guest goes on while the migration thread works. */
    method GuestWrites(writes: map<int, Page>)
      modifies this`src, this`log
      ensures Abs() == GuestWrote(old(Abs()), writes)
    {
      src := src + writes;
      log := log + writes.Keys;
    }

    /** A record on the wire, and what the destination makes of it. */
    method Put(p: int, i: nat, off: nat, payload: Payload)
      modifies this`sent, this`lastSent, this`dst, this`pending
      ensures Abs() == Deliver(old(Abs()), p, i, off, payload)
    {
      sent := sent + [Send(i, off, payload)];
      lastSent := Some(i);
      match payload
      case ZeroPage =>
        dst := dst[p := if p in dst then seq(|dst[p]|, _ => 0) else []];
        pending := pending - {p};
      case WholePage(page) =>
        dst := dst[p := page];
        pending := pending - {p};
      case LatePage =>
        pending := pending + {p};
      case DeltaPage(delta) =>
        var old' := if p in dst then dst[p] else [];
        var new' := Xbzrle.Decode(delta, old');
        dst := dst[p := if new'.Some? then new'.value else old'];
    }

    /** cache_insert, which may throw out other pages or find no memory */
    method CacheInsert(o: Observation, p: int, page: Page) returns (ok: bool)
      modifies this`cache
      ensures ok == o.inserted && Abs() == old(Abs()).(cache := Inserted(old(Abs()), o, p, page))
    {
      ok := o.inserted;
      if ok {
        cache := (cache - o.evicted)[p := page];
      }
    }

    /** save_xbzrle_page: whether it sent a delta, found nothing to send, or
        leaves the page, in `data`, to be sent whole. */
    method SaveXbzrlePage(o: Observation, p: int, i: nat, off: nat) returns (bytesSent: int, data: Page)
      requires p in cache ==> |cache[p]| == |o.copy| <= 0x3fff
      modifies this`cache, this`sent, this`lastSent, this`dst, this`pending
      ensures bytesSent == -1 || bytesSent == 0 || bytesSent == 1
      ensures var r := SaveXbzrle(cfg, old(Abs()), o, p, i, off);
        if bytesSent == -1 then
          r.sentBytes && r.state == Deliver(Abs(), p, i, off, if stopped then LatePage else WholePage(data))
        else Abs() == r.state && (bytesSent == 1) == r.sentBytes
    {
      hide Deliver;
      data := o.copy;
      if p !in cache {
        if !stopped {
          var ok := CacheInsert(o, p, o.copy);
        }
        return -1, data;
      }
      var encoded := Xbzrle.Encode(cache[p], o.copy, |o.copy|);
      match encoded
      case Unchanged => return 0, data;
      case Overflow =>
        if !stopped {
          cache := cache[p := o.recopy];
          data := o.recopy;
        }
        return -1, data;
      case Encoded(delta) =>
        if !stopped {
          cache := cache[p := o.copy];
        }
        Put(p, i, off, DeltaPage(delta));
        return 1, data;
    }

    /** The page branch of the loop. */
    method SavePage(o: Observation, p: int, i: nat, off: nat) returns (sentBytes: bool)
      requires p in cache ==> |cache[p]| == |o.copy| <= 0x3fff
      modifies this`cache, this`sent, this`lastSent, this`dst, this`pending
      ensures var r := SendPage(cfg, old(Abs()), o, p, i, off); Abs() == r.state && sentBytes == r.sentBytes
    {
      hide Deliver, SaveXbzrle;
      var sendAsync, bytesSent, data := true, -1, o.copy;
      if o.zeroTest == Zero(cfg) {
        // xbzrle_cache_zero_page and the record do not touch the same state
        if !bulk && cfg.xbzrle {
          var ok := CacheInsert(o, p, Zero(cfg));
        }
        Put(p, i, off, ZeroPage);
        bytesSent := 1;
      } else if !bulk && cfg.xbzrle {
        bytesSent, data := SaveXbzrlePage(o, p, i, off);
        if !stopped {
          sendAsync := false;
        }
      }
      if bytesSent == -1 {
        Put(p, i, off, if sendAsync then LatePage else WholePage(data));
        bytesSent := 1;
      }
      sentBytes := bytesSent > 0;
    }

    /** The body of ram_save_block's loop. */
    method SaveOnePass(o: Observation, c: Cursor) returns (c': Cursor, done: bool, sentBytes: bool)
      requires Valid() && c.block < |cfg.blocks| && |o.copy| == cfg.pageSize <= 0x3fff
      requires forall p | p in cache :: |cache[p]| == cfg.pageSize
      modifies this, bitmap
      ensures seen == old(seen) && offset == old(offset)
      ensures Pass(Abs(), c', done, sentBytes) == OnePass(cfg, old(Abs()), c, o)
    {
      hide FindAndReset, SendPage, Bits;
      c', sentBytes := c, false;
      GuestWrites(o.writes);
      var b := cfg.blocks[c.block];
      var next := FindAndResetDirty(b, c.offset);
      if c.round && seen == Some(c.block) && next >= offset {
        c', done := c.(offset := Max(next, 0)), true;
      } else if next >= b.pages {
        done := false;
        c' := Cursor(c.block + 1, 0, c.round);
        if c'.block >= |cfg.blocks| {
          c' := Cursor(0, 0, true);
          bulk := false;
        }
      } else {
        sentBytes := SavePage(o, b.base + next, c.block, Max(next, 0));
        c', done := c.(offset := Max(next, 0)), sentBytes;
      }
    }

    /** ram_save_block.  The observations are the guest's doings in the
        successive passes of the loop; that the loop ends among them is
        proved, not asked for. */
    method RamSaveBlock(os: seq<Observation>) returns (sentBytes: bool, ghost used: nat)
      requires Valid() && Sound(cfg, Abs()) && Watched(cfg, Abs(), Start(Abs()), os) && |os| > Left(cfg, Abs(), Start(Abs()))
      modifies this, bitmap
      ensures used <= |os| && used <= Left(cfg, old(Abs()), Start(old(Abs()))) + 1
      ensures Calls(cfg, old(Abs()), Start(old(Abs())), os[..used])
      ensures var last := LastPass(cfg, old(Abs()), Start(old(Abs())), os[..used]);
        Abs() == Ended(last) && sentBytes == last.sentBytes
    {
      hide Calls, LastPass, OnePass, Bits, Sized, Watched, Sound, InCall, Left;
      var c := Cursor(if seen.Some? then seen.value else 0, offset, false);
      SoundStarts(cfg, Abs());
      SoundSizes(cfg, Abs());
      used := CallEnds(cfg, Abs(), c, os, bulk);
      ghost var trace := os[..used];
      var k, done := 0, false;
      sentBytes := false;
      ghost var last := LastPass(cfg, Abs(), c, trace);
      assert trace[0..] == trace;
      PassOf(cfg, Abs(), c, trace);
      while !done
        invariant 0 <= k <= |trace|
        invariant if done then Pass(Abs(), c, true, sentBytes) == last
          else k < |trace| && Calls(cfg, Abs(), c, trace[k..]) && LastPass(cfg, Abs(), c, trace[k..]) == last && Sized(cfg, cache)
        decreases |trace| - k
      {
        PassOf(cfg, Abs(), c, trace[k..]);
        CacheFits(cfg, cache);
        assert trace[k..][1..] == trace[k + 1..];
        c, done, sentBytes := SaveOnePass(os[k], c);
        k := k + 1;
      }
      seen := Some(c.block);
      offset := c.offset;
    }
  }

  lemma SoundSizes(cfg: Config, s: State)
    requires Sound(cfg, s)
    ensures cfg.pageSize <= 0x3fff && Sized(cfg, s.cache)
  {
    hide CursorValid, Tallied;
  }

  lemma {:induction false} BlocksEnd(blocks: seq<RamBlock>)
    ensures forall i | 0 <= i < |blocks| :: blocks[i].End() <= LastPage(blocks)
  {
    if blocks != [] {
      BlocksEnd(blocks[1..]);
      assert forall i | 0 < i < |blocks| :: blocks[i] == blocks[1..][i - 1];
    }
  }

  /** Blocks do not overlap, so their lengths add up. */
  lemma OneMoreBlock(blocks: seq<RamBlock>, i: nat)
    requires Layout(blocks) && i < |blocks|
    ensures |RamPages(blocks[..i + 1])| == |RamPages(blocks[..i])| + blocks[i].pages
  {
    hide RamPages;
    var b := blocks[i];
    var more, less, own := RamPages(blocks[..i + 1]), RamPages(blocks[..i]), Range(b.base, b.End());
    RangeSize(b.base, b.End());
    forall p
      ensures p in more <==> p in less || p in own
      ensures p in less ==> p !in own
    {
      if p in less {
        var j :| 0 <= j < i && blocks[..i][j].Has(p);
        assert blocks[..i + 1][j].Has(p) && Disjoint(blocks[j], b);
      }
      if p in own {
        assert blocks[..i + 1][i].Has(p);
      }
      if p in more {
        var j :| 0 <= j < i + 1 && blocks[..i + 1][j].Has(p);
        assert j < i ==> blocks[..i][j].Has(p);
      }
    }
    assert more == less + own && less !! own;
  }

  lemma AllBits(s: seq<bool>)
    requires forall i | 0 <= i < |s| :: s[i]
    ensures Bits(s) == Range(0, |s|)
  {
  }

  lemma ClearedBit(before: seq<bool>, after: seq<bool>, x: nat)
    requires x < |before| && after == before[x := false]
    ensures Bits(after) == Bits(before) - {x}
  {
  }

  lemma PassOf(cfg: Config, s: State, c: Cursor, os: seq<Observation>)
    requires Calls(cfg, s, c, os) && Sized(cfg, s.cache)
    ensures os != [] && c.block < |cfg.blocks|
    ensures var p := OnePass(cfg, s, c, os[0]);
      p.done == (|os| == 1) &&
      (if p.done then LastPass(cfg, s, c, os) == p
       else Calls(cfg, p.state, p.cursor, os[1..]) && LastPass(cfg, s, c, os) == LastPass(cfg, p.state, p.cursor, os[1..]))
    ensures Sized(cfg, OnePass(cfg, s, c, os[0]).state.cache) && |os[0].copy| == cfg.pageSize
  {
    PassKeepsSized(cfg, s, c, os[0]);
    hide OnePass, Sized;
  }

  lemma CacheFits(cfg: Config, cache: map<int, Page>)
    requires Sized(cfg, cache)
    ensures forall p | p in cache :: |cache[p]| == cfg.pageSize
  {
  }

  lemma SendKeepsSized(cfg: Config, s: State, o: Observation, p: int, i: nat, off: nat)
    requires Sized(cfg, s.cache) && |o.copy| == |o.recopy| == cfg.pageSize
    ensures Sized(cfg, SendPage(cfg, s, o, p, i, off).state.cache)
  {
    hide Xbzrle.Encode, Xbzrle.Decode;
  }

  lemma PassKeepsSized(cfg: Config, s: State, c: Cursor, o: Observation)
    requires c.block < |cfg.blocks| && Sized(cfg, s.cache) && |o.copy| == |o.recopy| == cfg.pageSize
    ensures Sized(cfg, OnePass(cfg, s, c, o).state.cache)
  {
    hide SendPage, Sized;
    var b := cfg.blocks[c.block];
    var f := FindAndReset(GuestWrote(s, o.writes), b, c.offset);
    SendKeepsSized(cfg, f.state, o, b.base + f.next, c.block, Max(f.next, 0));
  }
}
