/** Pre-copy migration of RAM as a state machine: the guest writes, its dirty
    log is folded into the bitmap, ram_save_block sends pages, and the guest
    is finally stopped.

    The guest keeps writing while ram_save_block runs.  Every pass of its loop
    takes an observation: the guest writes that fell into the pass, and what
    the migration thread saw when it read the page (three times, in the zero
    test, in the copy to the encoder and in a copy to the cache), which may be
    torn if the guest wrote the page meanwhile. */
module Precopy {
  import opened Common
  import opened MigrationBitmap
  import Xbzrle

  type Page = seq<Byte>

  datatype Config = Config(blocks: seq<RamBlock>, pageSize: nat, word: int, xbzrle: bool) {
    predicate Valid() {
      blocks != [] && Layout(blocks) && 2 <= pageSize <= 0x3fff && word > 0 && Homed(blocks, word)
    }
  }

  /** A page on the wire. */
  datatype Payload = ZeroPage | WholePage(page: Page) | LatePage | DeltaPage(delta: seq<Byte>)
  datatype Send = Send(block: nat, offset: nat, payload: Payload)

  datatype State = State(
    src: map<int, Page>,          // guest RAM on the source
    dst: map<int, Page>,          // ... and on the destination, once it has read the stream
    pending: set<int>,            // pages handed over without a copy, not yet on the wire
    log: set<int>,                // dirty log
    bitmap: set<int>,             // migration_bitmap
    count: int,                   // migration_dirty_pages
    bulk: bool,                   // ram_bulk_stage
    seen: Option<nat>,            // last_seen_block, as an index into the block list
    offset: nat,                  // last_offset, in pages
    lastSent: Option<nat>,        // last_sent_block
    cache: map<int, Page>,        // XBZRLE cache
    stopped: bool,                // guest stopped, final stage
    sent: seq<Send>)              // everything sent so far

  function Zero(cfg: Config): Page { seq(cfg.pageSize, _ => 0) }

  predicate Sized(cfg: Config, m: map<int, Page>) {
    forall p | p in m :: |m[p]| == cfg.pageSize
  }

  // ---- one pass of the loop in ram_save_block

  datatype Observation = Observation(
    writes: map<int, Page>,   // guest writes that fell into this pass
    zeroTest: Page, copy: Page, recopy: Page,
    inserted: bool,           // the cache could take the page
    evicted: set<int>)        // what it threw out for it

  /** Local variables of ram_save_block. */
  datatype Cursor = Cursor(block: nat, offset: nat, round: bool)

  datatype Found = Found(next: int, state: State)

  /** migration_bitmap_find_and_reset_dirty; the offset it returns, in pages */
  function FindAndReset(s: State, b: RamBlock, start: nat): Found {
    var nr := b.base + start;
    var next := if s.bulk && nr > b.base then nr + 1 else FindNext(s.bitmap, b.End(), nr);
    Found(next - b.base,
          if next < b.End() then s.(bitmap := s.bitmap - {next}, count := s.count - 1) else s)
  }

  function GuestWrote(s: State, writes: map<int, Page>): State {
    s.(src := s.src + writes, log := s.log + writes.Keys)
  }

  /** What the observation of a page can be. */
  ghost predicate Plausible(cfg: Config, s: State, o: Observation, p: int) {
    && o.writes.Keys <= s.src.Keys && Sized(cfg, o.writes)
    && (s.stopped ==> o.writes == map[])
    && |o.zeroTest| == |o.copy| == |o.recopy| == cfg.pageSize
    && (p in s.src && p !in o.writes ==> o.zeroTest == o.copy == o.recopy == s.src[p])
    && (!o.inserted ==> p !in s.cache)
  }

  function Inserted(s: State, o: Observation, p: int, page: Page): map<int, Page> {
    if o.inserted then (s.cache - o.evicted)[p := page] else s.cache
  }

  /** A record of the stream reaches the destination at once, except for a
      page handed over without a copy. */
  function Deliver(s: State, p: int, i: nat, off: nat, payload: Payload): State {
    var s1 := s.(sent := s.sent + [Send(i, off, payload)], lastSent := Some(i));
    match payload
    case ZeroPage => s1.(dst := s.dst[p := if p in s.dst then seq(|s.dst[p]|, _ => 0) else []], pending := s.pending - {p})
    case WholePage(page) => s1.(dst := s.dst[p := page], pending := s.pending - {p})
    case LatePage => s1.(pending := s.pending + {p})
    case DeltaPage(delta) =>
      var old' := if p in s.dst then s.dst[p] else [];
      var new' := Xbzrle.Decode(delta, old');
      s1.(dst := s.dst[p := if new'.Some? then new'.value else old'])
  }

  datatype Sending = Sending(state: State, sentBytes: bool)

  /** save_xbzrle_page, and the normal page it may fall back to */
  function SaveXbzrle(cfg: Config, s: State, o: Observation, p: int, i: nat, off: nat): Sending {
    if p !in s.cache then
      if s.stopped then Sending(Deliver(s, p, i, off, LatePage), true)
      else if o.inserted then
        Sending(Deliver(s.(cache := Inserted(s, o, p, o.copy)), p, i, off, WholePage(o.copy)), true)
      else Sending(Deliver(s, p, i, off, WholePage(o.copy)), true)
    else if |s.cache[p]| != |o.copy| || |o.copy| > 0x3fff then Sending(s, false)   // cannot happen: both are pages
    else match Xbzrle.Encode(s.cache[p], o.copy, |o.copy|)
      case Unchanged => Sending(s, false)
      case Overflow =>
        if s.stopped then Sending(Deliver(s, p, i, off, LatePage), true)
        else Sending(Deliver(s.(cache := s.cache[p := o.recopy]), p, i, off, WholePage(o.recopy)), true)
      case Encoded(delta) =>
        var cached := if s.stopped then s.cache else s.cache[p := o.copy];
        Sending(Deliver(s.(cache := cached), p, i, off, DeltaPage(delta)), true)
  }

  /** The page branch of the loop. */
  function SendPage(cfg: Config, s: State, o: Observation, p: int, i: nat, off: nat): Sending {
    if o.zeroTest == Zero(cfg) then
      // xbzrle_cache_zero_page
      var cached := if s.bulk || !cfg.xbzrle then s.cache else Inserted(s, o, p, Zero(cfg));
      Sending(Deliver(s.(cache := cached), p, i, off, ZeroPage), true)
    else if !s.bulk && cfg.xbzrle then SaveXbzrle(cfg, s, o, p, i, off)
    else Sending(Deliver(s, p, i, off, LatePage), true)
  }

  datatype Pass = Pass(state: State, cursor: Cursor, done: bool, sentBytes: bool)

  /** One pass of the loop; seen and offset of the state are those of the
      call, they are stored when it ends. */
  function OnePass(cfg: Config, s: State, c: Cursor, o: Observation): Pass
    requires c.block < |cfg.blocks|
  {
    var b := cfg.blocks[c.block];
    var f := FindAndReset(GuestWrote(s, o.writes), b, c.offset);
    var off := f.next;
    if c.round && s.seen == Some(c.block) && off >= s.offset then
      Pass(f.state, c.(offset := Max(off, 0)), true, false)
    else if off >= b.pages then
      if c.block + 1 < |cfg.blocks| then Pass(f.state, Cursor(c.block + 1, 0, c.round), false, false)
      else Pass(f.state.(bulk := false), Cursor(0, 0, true), false, false)
    else
      var sending := SendPage(cfg, f.state, o, b.base + off, c.block, Max(off, 0));
      Pass(sending.state, c.(offset := Max(off, 0)), sending.sentBytes, sending.sentBytes)
  }

  function Start(s: State): Cursor {
    Cursor(if s.seen.Some? then s.seen.value else 0, s.offset, false)
  }

  function Ended(p: Pass): State {
    p.state.(seen := Some(p.cursor.block), offset := p.cursor.offset)
  }

  /** The observations of one call: each pass but the last goes on. */
  ghost predicate Calls(cfg: Config, s: State, c: Cursor, os: seq<Observation>)
    decreases |os|
  {
    && os != [] && c.block < |cfg.blocks|
    && Plausible(cfg, s, os[0], PageAt(cfg, s, c, os[0]))
    && var p := OnePass(cfg, s, c, os[0]);
       p.done == (|os| == 1) && (!p.done ==> Calls(cfg, p.state, p.cursor, os[1..]))
  }

  /** Passes of a call that has not ended: every one of them goes on. */
  ghost predicate GoingOn(cfg: Config, s: State, c: Cursor, os: seq<Observation>)
    decreases |os|
  {
    os == [] ||
    (c.block < |cfg.blocks| &&
     var p := OnePass(cfg, s, c, os[0]);
     !p.done && GoingOn(cfg, p.state, p.cursor, os[1..]))
  }

  /** What a call may observe for as long as it goes on; nothing is said about
      when that is. */
  ghost predicate Watched(cfg: Config, s: State, c: Cursor, os: seq<Observation>)
    decreases |os|
  {
    os == [] ||
    (c.block < |cfg.blocks| && Plausible(cfg, s, os[0], PageAt(cfg, s, c, os[0])) &&
     var p := OnePass(cfg, s, c, os[0]);
     !p.done ==> Watched(cfg, p.state, p.cursor, os[1..]))
  }

  /** The page a pass will look at, if any. */
  function PageAt(cfg: Config, s: State, c: Cursor, o: Observation): int
    requires c.block < |cfg.blocks|
  {
    cfg.blocks[c.block].base + FindAndReset(GuestWrote(s, o.writes), cfg.blocks[c.block], c.offset).next
  }

  /** ram_save_block: the last pass of a call, whose sentBytes is whether it
      returned more than 0. */
  function LastPass(cfg: Config, s: State, c: Cursor, os: seq<Observation>): Pass
    requires Calls(cfg, s, c, os)
    decreases |os|
  {
    var p := OnePass(cfg, s, c, os[0]);
    if p.done then p else LastPass(cfg, p.state, p.cursor, os[1..])
  }

  // ---- events

  datatype Event =
    | Guest(writes: map<int, Page>)
    | SyncBitmap
    | Save(os: seq<Observation>)       // one call of ram_save_block
    | Flush(p: int, page: Page, writes: map<int, Page>)   // a page handed over without a copy goes out
    | Evict(pages: set<int>)           // the cache is resized
    | Stop                             // guest stopped; ram_save_complete syncs once more

  ghost predicate Enabled(cfg: Config, s: State, e: Event) {
    match e
    case Guest(writes) => !s.stopped && writes.Keys <= s.src.Keys && Sized(cfg, writes)
    case SyncBitmap => !s.stopped
    case Save(os) => Calls(cfg, s, Start(s), os)
    case Flush(p, page, writes) =>
      // what goes out is the page, or anything if the guest writes it meanwhile
      && p in s.pending && p in s.src && |page| == cfg.pageSize
      && writes.Keys <= s.src.Keys && Sized(cfg, writes) && (s.stopped ==> writes == map[])
      && (p !in writes ==> page == s.src[p])
    case Evict(_) => true
    case Stop => !s.stopped
  }

  function Synced(cfg: Config, s: State): State
    requires cfg.word > 0
  {
    var m := Sync(Marks(s.bitmap, s.log, s.count), cfg.blocks, cfg.word);
    s.(bitmap := m.bits, log := m.log, count := m.count)
  }

  function Step(cfg: Config, s: State, e: Event): State
    requires cfg.word > 0 && Enabled(cfg, s, e)
  {
    match e
    case Guest(writes) => GuestWrote(s, writes)
    case SyncBitmap => Synced(cfg, s)
    case Save(os) => Ended(LastPass(cfg, s, Start(s), os))
    case Flush(p, page, writes) => GuestWrote(s, writes).(dst := s.dst[p := page], pending := s.pending - {p})
    case Evict(pages) => s.(cache := s.cache - pages)
    case Stop => Synced(cfg, s).(stopped := true)
  }

  /** ram_save_setup, up to its first sync: everything marked, nothing sent. */
  function Initial(cfg: Config, src: map<int, Page>, dst: map<int, Page>, log: set<int>): State {
    State(src, dst, {}, log, Range(0, LastPage(cfg.blocks)), |RamPages(cfg.blocks)|,
          true, None, 0, None, map[], false, [])
  }
}
