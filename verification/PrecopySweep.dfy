/** The round-robin cursor of ram_save_block: a call that sends nothing has
    swept all of RAM, the loop ends, and the only page a call can unmark
    without settling it is the last page of the bulk stage. */
module PrecopySweep {
  import opened Common
  import opened MigrationBitmap
  import opened Precopy
  import opened PrecopySafety
  import Xbzrle

  /** Page i of block k. */
  function At(cfg: Config, k: nat, i: nat): int
    requires k < |cfg.blocks|
  {
    cfg.blocks[k].base + i
  }

  function StartBlock(s: State): nat { if s.seen.Some? then s.seen.value else 0 }

  /** At or after the position the call started from. */
  predicate AfterStart(s: State, k: nat, i: nat) {
    k > StartBlock(s) || (k == StartBlock(s) && i >= s.offset)
  }

  predicate BeforeCursor(c: Cursor, k: nat, i: nat) {
    k < c.block || (k == c.block && i < c.offset)
  }

  /** The call has passed over this page. */
  predicate Behind(s: State, c: Cursor, k: nat, i: nat) {
    if c.round then AfterStart(s, k, i) || BeforeCursor(c, k, i)
    else AfterStart(s, k, i) && BeforeCursor(c, k, i)
  }

  /** The page the bulk shortcut does not look at: where the call started. */
  function Skipped(cfg: Config, s: State, bulkStart: bool): Option<int>
    requires StartBlock(s) < |cfg.blocks|
  {
    if bulkStart then Some(At(cfg, StartBlock(s), s.offset)) else None
  }

  /** Pages the call has passed over are unmarked, but for that one. */
  ghost predicate Swept(cfg: Config, s: State, c: Cursor, bulkStart: bool)
    requires StartBlock(s) < |cfg.blocks|
  {
    forall k: nat, i: nat | k < |cfg.blocks| && i < cfg.blocks[k].pages && Behind(s, c, k, i) ::
      At(cfg, k, i) in s.bitmap ==> Skipped(cfg, s, bulkStart) == Some(At(cfg, k, i))
  }

  /** In the bulk stage everything after the cursor is still marked; so is all
      of a block the call has moved on to. */
  ghost predicate BulkAhead(cfg: Config, s: State, c: Cursor) {
    forall k: nat, i: nat | k < |cfg.blocks| && i < cfg.blocks[k].pages &&
                            (k > c.block || (k == c.block && (i > c.offset || c.block > StartBlock(s)))) ::
      At(cfg, k, i) in s.bitmap
  }

  /** Where the cursor of the last call was left. */
  ghost predicate CursorValid(cfg: Config, s: State) {
    && StartBlock(s) < |cfg.blocks| && s.offset <= cfg.blocks[StartBlock(s)].pages
    && (s.seen.None? ==> s.bulk && s.offset == 0)
    && (s.bulk ==> s.offset < cfg.blocks[StartBlock(s)].pages && BulkAhead(cfg, s, Start(s)))
    && (s.bulk && s.seen.None? ==> At(cfg, 0, 0) in s.bitmap)
  }

  /** Between two passes of a call. */
  ghost predicate InCall(cfg: Config, s: State, c: Cursor, bulkStart: bool) {
    && StartBlock(s) < |cfg.blocks| && s.offset <= cfg.blocks[StartBlock(s)].pages
    && c.block < |cfg.blocks| && c.offset <= cfg.blocks[c.block].pages
    && (s.bulk ==> bulkStart && !c.round && BulkAhead(cfg, s, c) && c.offset < cfg.blocks[c.block].pages &&
                   c.offset == if c.block > StartBlock(s) then 0 else s.offset)
    && (!s.bulk ==> s.seen.Some? && Swept(cfg, s, c, bulkStart) && (bulkStart ==> c.round))
    && (s.seen.None? ==> c == Cursor(0, 0, false) && At(cfg, 0, 0) in s.bitmap)
    && (c.round ==> c.block <= StartBlock(s) && (c.block == StartBlock(s) ==> c.offset <= s.offset))
    && (!c.round ==> c.block >= StartBlock(s) && (c.block == StartBlock(s) ==> c.offset >= s.offset))
    && (bulkStart ==> s.cache == map[] && s.offset < cfg.blocks[StartBlock(s)].pages)
  }

  lemma CallStarts(cfg: Config, s: State)
    requires Shape(cfg, s) && CursorValid(cfg, s)
    ensures InCall(cfg, s, Start(s), s.bulk)
  {
  }

  /** What is left for the call at most: marked pages and blocks to visit. */
  function BlocksLeft(cfg: Config, s: State, c: Cursor): int {
    if c.round then StartBlock(s) - c.block else |cfg.blocks| - c.block + StartBlock(s)
  }

  function Left(cfg: Config, s: State, c: Cursor): int {
    |s.bitmap * RamPages(cfg.blocks)| + BlocksLeft(cfg, s, c)
  }

  // ---- one pass

  /** t differs from s only in what a send may change. */
  ghost predicate SameMarks(s: State, t: State) {
    && t.bitmap == s.bitmap && t.seen == s.seen && t.offset == s.offset && t.bulk == s.bulk
    && t.stopped == s.stopped && t.log == s.log && t.src == s.src
  }

  lemma XbzrleFrame(cfg: Config, s: State, o: Observation, p: int, i: nat, off: nat)
    ensures var r := SaveXbzrle(cfg, s, o, p, i, off);
      SameMarks(s, r.state) && (p !in s.cache ==> r.sentBytes) && (!r.sentBytes ==> r.state == s)
  {
    hide Xbzrle.Encode, Xbzrle.Decode;
  }

  /** Sending a page touches neither the bitmap nor the cursor. */
  lemma SendFrame(cfg: Config, s: State, o: Observation, p: int, i: nat, off: nat)
    ensures var r := SendPage(cfg, s, o, p, i, off);
      SameMarks(s, r.state) && (s.bulk || p !in s.cache ==> r.sentBytes) && (!r.sentBytes ==> r.state == s)
  {
    hide SaveXbzrle;
    XbzrleFrame(cfg, s, o, p, i, off);
  }

  datatype Finding = Exit | Advance | Wrap | Sent | Skip

  /** What a pass did. */
  function Kind(cfg: Config, s: State, c: Cursor, o: Observation): Finding
    requires c.block < |cfg.blocks|
  {
    var b := cfg.blocks[c.block];
    var f := FindAndReset(GuestWrote(s, o.writes), b, c.offset);
    if c.round && s.seen == Some(c.block) && f.next >= s.offset then Exit
    else if f.next >= b.pages then if c.block + 1 < |cfg.blocks| then Advance else Wrap
    else if OnePass(cfg, s, c, o).sentBytes then Sent else Skip
  }

  lemma FindFrame(s: State, writes: map<int, Page>, b: RamBlock, start: nat)
    ensures var f := FindAndReset(GuestWrote(s, writes), b, start).state;
      f == GuestWrote(s, writes).(bitmap := f.bitmap, count := f.count)
  {
  }

  /** Bitmap and flags after a pass. */
  ghost predicate Framed(cfg: Config, s: State, c: Cursor, o: Observation)
    requires c.block < |cfg.blocks|
  {
    var t := OnePass(cfg, s, c, o).state;
    var k := Kind(cfg, s, c, o);
    t.seen == s.seen && t.offset == s.offset && t.stopped == s.stopped &&
    t.bitmap == FindAndReset(GuestWrote(s, o.writes), cfg.blocks[c.block], c.offset).state.bitmap &&
    t.bulk == (s.bulk && !k.Wrap?) &&
    t.log == s.log + o.writes.Keys && t.src == s.src + o.writes &&
    (!k.Sent? ==> t.cache == s.cache && t.dst == s.dst && t.pending == s.pending && t.sent == s.sent && t.lastSent == s.lastSent) &&
    (k.Skip? ==> !s.bulk && s.cache != map[])
  }

  lemma PassFrame(cfg: Config, s: State, c: Cursor, o: Observation)
    requires c.block < |cfg.blocks|
    ensures Framed(cfg, s, c, o)
  {
    hide FindAndReset, SendPage, OnePass, Kind, Framed;
    var b := cfg.blocks[c.block];
    var f := FindAndReset(GuestWrote(s, o.writes), b, c.offset);
    FindFrame(s, o.writes, b, c.offset);
    SendFrame(cfg, f.state, o, b.base + f.next, c.block, Max(f.next, 0));
    PassFrameBy(cfg, s, c, o, f, SendPage(cfg, f.state, o, b.base + f.next, c.block, Max(f.next, 0)));
  }

  lemma PassFrameBy(cfg: Config, s: State, c: Cursor, o: Observation, f: Found, r: Sending)
    requires c.block < |cfg.blocks| && f == FindAndReset(GuestWrote(s, o.writes), cfg.blocks[c.block], c.offset)
    requires r == SendPage(cfg, f.state, o, cfg.blocks[c.block].base + f.next, c.block, Max(f.next, 0))
    requires f.state == GuestWrote(s, o.writes).(bitmap := f.state.bitmap, count := f.state.count)
    requires SameMarks(f.state, r.state) && (s.bulk || s.cache == map[] ==> r.sentBytes)
    requires !r.sentBytes ==> r.state == f.state
    ensures Framed(cfg, s, c, o)
  {
    hide FindAndReset, SendPage;
  }

  /** Cursor and outcome after a pass. */
  lemma PassOutcome(cfg: Config, s: State, c: Cursor, o: Observation)
    requires c.block < |cfg.blocks|
    ensures var p := OnePass(cfg, s, c, o);
      var k := Kind(cfg, s, c, o);
      p.done == (k.Exit? || k.Sent?) && p.sentBytes == k.Sent? &&
      p.cursor == (match k
                   case Advance => Cursor(c.block + 1, 0, c.round)
                   case Wrap => Cursor(0, 0, true)
                   case _ => c.(offset := Max(FindAndReset(GuestWrote(s, o.writes), cfg.blocks[c.block], c.offset).next, 0)))
  {
    hide FindAndReset, SendPage, GuestWrote;
  }

  /** Outside the bulk stage a pass finds the next marked page of its block. */
  lemma LinearFinds(cfg: Config, s: State, c: Cursor, o: Observation)
    requires c.block < |cfg.blocks| && c.offset <= cfg.blocks[c.block].pages && !s.bulk
    ensures var b := cfg.blocks[c.block];
      var f := FindAndReset(GuestWrote(s, o.writes), b, c.offset);
      c.offset <= f.next <= b.pages &&
      (forall i: nat | c.offset <= i < f.next :: At(cfg, c.block, i) !in s.bitmap) &&
      (if f.next < b.pages then At(cfg, c.block, f.next) in s.bitmap && f.state.bitmap == s.bitmap - {At(cfg, c.block, f.next)}
       else f.state.bitmap == s.bitmap)
  {
  }

  lemma PassKind(cfg: Config, s: State, c: Cursor, o: Observation)
    requires c.block < |cfg.blocks|
    ensures var b := cfg.blocks[c.block];
      var off := FindAndReset(GuestWrote(s, o.writes), b, c.offset).next;
      match Kind(cfg, s, c, o)
      case Exit => c.round && s.seen == Some(c.block) && off >= s.offset
      case Advance => !(c.round && s.seen == Some(c.block) && off >= s.offset) && off >= b.pages && c.block + 1 < |cfg.blocks|
      case Wrap => !(c.round && s.seen == Some(c.block) && off >= s.offset) && off >= b.pages && c.block + 1 == |cfg.blocks|
      case _ => !(c.round && s.seen == Some(c.block) && off >= s.offset) && off < b.pages
  {
    hide FindAndReset, OnePass;
  }

  /** A pass that goes on keeps what has been swept. */
  lemma LinearGoesOn(cfg: Config, s: State, c: Cursor, o: Observation, bulkStart: bool)
    requires InCall(cfg, s, c, bulkStart) && !s.bulk && !OnePass(cfg, s, c, o).done
    ensures var p := OnePass(cfg, s, c, o); InCall(cfg, p.state, p.cursor, bulkStart)
  {
    PassFrame(cfg, s, c, o);
    PassOutcome(cfg, s, c, o);
    LinearFinds(cfg, s, c, o);
    PassKind(cfg, s, c, o);
    hide OnePass, FindAndReset, Kind;
    var p := OnePass(cfg, s, c, o);
    forall k: nat, i: nat | k < |cfg.blocks| && i < cfg.blocks[k].pages && Behind(p.state, p.cursor, k, i)
      ensures At(cfg, k, i) in p.state.bitmap ==> Skipped(cfg, p.state, bulkStart) == Some(At(cfg, k, i))
    {
      if k == c.block && c.offset <= i {
      } else {
        assert Behind(s, c, k, i);
      }
    }
  }

  /** A call that ends without sending leaves no marked page in RAM. */
  lemma LinearExit(cfg: Config, s: State, c: Cursor, o: Observation, bulkStart: bool)
    requires cfg.Valid() && InCall(cfg, s, c, bulkStart) && !s.bulk && Kind(cfg, s, c, o).Exit?
    ensures OnePass(cfg, s, c, o).state.bitmap * RamPages(cfg.blocks) == {}
    ensures Drops(cfg, s, c, o) ==>
      bulkStart && s.offset < cfg.blocks[StartBlock(s)].pages && s.bitmap * RamPages(cfg.blocks) == {At(cfg, StartBlock(s), s.offset)}
    ensures !Drops(cfg, s, c, o) ==> s.bitmap * RamPages(cfg.blocks) == {}
  {
    PassFrame(cfg, s, c, o);
    LinearFinds(cfg, s, c, o);
    PassKind(cfg, s, c, o);
    var b := cfg.blocks[c.block];
    var f := FindAndReset(GuestWrote(s, o.writes), b, c.offset);
    var x := At(cfg, c.block, f.next);
    assert Drops(cfg, s, c, o) <==> f.next < b.pages;
    hide OnePass, FindAndReset, Kind, Drops;
    assert f.next < b.pages ==> Behind(s, c, c.block, f.next);
    forall q | q in s.bitmap && q in RamPages(cfg.blocks)
      ensures f.next < b.pages && q == x
    {
      LinearExitPage(cfg, s, c, f.next, bulkStart, q);
    }
    if f.next < b.pages {
      BlockPagesInRam(cfg, c.block, x);
      assert s.bitmap * RamPages(cfg.blocks) == {x};
      assert x == At(cfg, StartBlock(s), s.offset);
    } else {
      assert s.bitmap * RamPages(cfg.blocks) == {};
    }
  }

  lemma LinearExitPage(cfg: Config, s: State, c: Cursor, next: nat, bulkStart: bool, q: int)
    requires InCall(cfg, s, c, bulkStart) && !s.bulk && c.round && c.block == StartBlock(s)
    requires s.offset <= next <= cfg.blocks[c.block].pages && c.offset <= next
    requires forall i: nat | c.offset <= i < next :: At(cfg, c.block, i) !in s.bitmap
    requires next < cfg.blocks[c.block].pages ==> At(cfg, c.block, next) in s.bitmap
    requires q in s.bitmap && InRam(cfg.blocks, q)
    ensures next < cfg.blocks[c.block].pages && q == At(cfg, c.block, next)
  {
    var k: nat :| k < |cfg.blocks| && cfg.blocks[k].Has(q);
    var i: nat := q - cfg.blocks[k].base;
    assert At(cfg, k, i) == q;
    assert Behind(s, c, k, i);
    assert bulkStart && q == At(cfg, StartBlock(s), s.offset);
    assert At(cfg, c.block, s.offset) in s.bitmap;
  }

  // ---- the bulk stage

  lemma BulkFinds(cfg: Config, s: State, c: Cursor, o: Observation)
    requires cfg.Valid() && InCall(cfg, s, c, true) && s.bulk
    ensures BulkNextMarked(cfg, s, c)
    ensures var b := cfg.blocks[c.block];
      var f := FindAndReset(GuestWrote(s, o.writes), b, c.offset);
      var k := Kind(cfg, s, c, o);
      0 <= f.next <= b.pages && !k.Exit? && !k.Skip? &&
      (f.next < b.pages ==> k.Sent? && f.next >= c.offset && f.next <= c.offset + 1 && f.state.bitmap == s.bitmap - {At(cfg, c.block, f.next)}) &&
      (f.next >= b.pages ==> c.block == StartBlock(s) && c.offset == b.pages - 1 && f.state.bitmap == s.bitmap)
  {
    var b := cfg.blocks[c.block];
    PassFrame(cfg, s, c, o);
    PassKind(cfg, s, c, o);
    hide OnePass, Kind;
    if c.offset > 0 && c.offset + 1 < b.pages {
      assert At(cfg, c.block, c.offset + 1) in s.bitmap;
    }
    if c.offset == 0 && b.pages > 1 {
      assert At(cfg, c.block, 1) in s.bitmap;
    }
    if c.block > StartBlock(s) {
      assert At(cfg, c.block, 0) in s.bitmap;
    }
  }

  /** A pass of the bulk stage that goes on either enters a block that is all
      marked, or ends the bulk stage with nothing unmarked. */
  lemma BulkGoesOn(cfg: Config, s: State, c: Cursor, o: Observation)
    requires cfg.Valid() && InCall(cfg, s, c, true) && s.bulk && !OnePass(cfg, s, c, o).done
    ensures var p := OnePass(cfg, s, c, o); InCall(cfg, p.state, p.cursor, true) && p.state.bitmap == s.bitmap
  {
    PassFrame(cfg, s, c, o);
    PassOutcome(cfg, s, c, o);
    PassKind(cfg, s, c, o);
    BulkFinds(cfg, s, c, o);
    hide OnePass, FindAndReset, Kind;
    var p := OnePass(cfg, s, c, o);
    if p.state.bulk {
      assert BulkAhead(cfg, p.state, p.cursor);
    } else {
      forall k: nat, i: nat | k < |cfg.blocks| && i < cfg.blocks[k].pages && Behind(p.state, p.cursor, k, i)
        ensures Skipped(cfg, p.state, true) == Some(At(cfg, k, i))
      {
      }
    }
  }

  /** A bulk call that sends leaves the stage as a bulk call may start in it. */
  lemma BulkSent(cfg: Config, s: State, c: Cursor, o: Observation)
    requires cfg.Valid() && InCall(cfg, s, c, true) && s.bulk && OnePass(cfg, s, c, o).done
    ensures var p := OnePass(cfg, s, c, o); p.sentBytes && CursorValid(cfg, Ended(p))
  {
    PassFrame(cfg, s, c, o);
    PassOutcome(cfg, s, c, o);
    PassKind(cfg, s, c, o);
    BulkFinds(cfg, s, c, o);
    hide OnePass, FindAndReset, Kind;
    var t := Ended(OnePass(cfg, s, c, o));
    forall k: nat, i: nat | k < |cfg.blocks| && i < cfg.blocks[k].pages && (k > t.seen.value || (k == t.seen.value && i > t.offset))
      ensures At(cfg, k, i) in t.bitmap
    {
      assert At(cfg, k, i) in s.bitmap;
      PagesDistinct(cfg, k, i, c.block, t.offset);
    }
  }

  lemma PagesDistinct(cfg: Config, k: nat, i: nat, k': nat, i': nat)
    requires Layout(cfg.blocks) && k < |cfg.blocks| && k' < |cfg.blocks| && i < cfg.blocks[k].pages && i' < cfg.blocks[k'].pages
    requires k != k' || i != i'
    ensures At(cfg, k, i) != At(cfg, k', i')
  {
    if k < k' {
      assert Disjoint(cfg.blocks[k], cfg.blocks[k']);
    } else if k' < k {
      assert Disjoint(cfg.blocks[k'], cfg.blocks[k]);
    }
  }

  // ---- whole calls

  lemma InCallMarked(cfg: Config, s: State, c: Cursor, bulkStart: bool, o: Observation)
    requires cfg.Valid() && InCall(cfg, s, c, bulkStart)
    ensures BulkNextMarked(cfg, s, c)
  {
    if s.bulk {
      BulkFinds(cfg, s, c, o);
    }
  }

  lemma GoesOn(cfg: Config, s: State, c: Cursor, o: Observation, bulkStart: bool)
    requires cfg.Valid() && InCall(cfg, s, c, bulkStart) && !OnePass(cfg, s, c, o).done
    ensures var p := OnePass(cfg, s, c, o);
      InCall(cfg, p.state, p.cursor, bulkStart) && (bulkStart ==> p.state.bitmap == s.bitmap)
  {
    if s.bulk {
      BulkGoesOn(cfg, s, c, o);
    } else {
      LinearGoesOn(cfg, s, c, o, bulkStart);
      if bulkStart {
        PassFrame(cfg, s, c, o);
        PassOutcome(cfg, s, c, o);
        PassKind(cfg, s, c, o);
        LinearFinds(cfg, s, c, o);
      }
    }
  }

  lemma EndsWell(cfg: Config, s: State, c: Cursor, o: Observation, bulkStart: bool)
    requires cfg.Valid() && InCall(cfg, s, c, bulkStart) && OnePass(cfg, s, c, o).done
    ensures CursorValid(cfg, Ended(OnePass(cfg, s, c, o)))
    ensures !OnePass(cfg, s, c, o).sentBytes ==> !s.bulk && Kind(cfg, s, c, o).Exit?
  {
    if s.bulk {
      BulkSent(cfg, s, c, o);
    } else {
      PassFrame(cfg, s, c, o);
      PassOutcome(cfg, s, c, o);
      LinearFinds(cfg, s, c, o);
    }
  }
}
