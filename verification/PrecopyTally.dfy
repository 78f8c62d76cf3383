/** What every run of a migration keeps, runs that lose a page included: the
    shape of the state, the cursor, and the tally of dirty pages. */
module PrecopyTally {
  import opened Common
  import opened MigrationBitmap
  import opened Precopy
  import opened PrecopySafety
  import opened PrecopySweep
  import opened PrecopyRuns
  import Xbzrle

  /** Sending changes one page, to a page, whatever the cache holds. */
  lemma XbzrleShape(cfg: Config, s: State, o: Observation, p: int, i: nat, off: nat)
    requires Sized(cfg, s.cache) && Sized(cfg, s.dst) && p in s.dst && |o.copy| == |o.recopy| == cfg.pageSize
    ensures var t := SaveXbzrle(cfg, s, o, p, i, off).state;
      OthersKept(s, t, p) && Sized(cfg, t.dst) && Sized(cfg, t.cache)
  {
    hide Xbzrle.Encode, Xbzrle.DecodeInto;
    if p in s.cache && |s.cache[p]| == |o.copy| <= 0x3fff {
      var e := Xbzrle.Encode(s.cache[p], o.copy, |o.copy|);
      if e.Encoded? {
        Xbzrle.DecodeKeepsSize(e.bytes, 0, s.dst[p], 0);
      }
    }
  }

  lemma SendShape(cfg: Config, s: State, o: Observation, p: int, i: nat, off: nat)
    requires Sized(cfg, s.cache) && Sized(cfg, s.dst) && p in s.dst && |o.copy| == |o.recopy| == cfg.pageSize
    requires s.bulk || !cfg.xbzrle ==> s.cache == map[]
    ensures var t := SendPage(cfg, s, o, p, i, off).state;
      OthersKept(s, t, p) && Sized(cfg, t.dst) && Sized(cfg, t.cache) && (s.bulk || !cfg.xbzrle ==> t.cache == map[])
  {
    hide SaveXbzrle;
    if o.zeroTest == Zero(cfg) {
      assert seq(|s.dst[p]|, _ => 0) == Zero(cfg);
    } else if !s.bulk && cfg.xbzrle {
      XbzrleShape(cfg, s, o, p, i, off);
    }
  }

  lemma FoundSound(cfg: Config, g: State, f: State, o: Observation, p: int, i: nat, off: nat)
    requires Shape(cfg, g) && Tallied(cfg, g) && p in RamPages(cfg.blocks) && p in g.bitmap
    requires f == g.(bitmap := g.bitmap - {p}, count := g.count - 1) && |o.copy| == |o.recopy| == cfg.pageSize
    ensures Shape(cfg, f) && Tallied(cfg, f)
    ensures var t := SendPage(cfg, f, o, p, i, off).state; Shape(cfg, t) && Tallied(cfg, t)
  {
    hide Tallied, SendPage, RamPages, Config.Valid;
    UnmarkTallied(cfg, g, f, p);
    UnmarkShape(cfg, g, f);
    SendShape(cfg, f, o, p, i, off);
    var t := SendPage(cfg, f, o, p, i, off).state;
    SettledShape(cfg, g, f, t, p);
    TalliedKept(cfg, f, t, p);
  }

  lemma PassSound(cfg: Config, s: State, c: Cursor, o: Observation)
    requires Shape(cfg, s) && Tallied(cfg, s) && c.block < |cfg.blocks| && BulkNextMarked(cfg, s, c)
    requires Plausible(cfg, s, o, PageAt(cfg, s, c, o))
    ensures var t := OnePass(cfg, s, c, o).state; Shape(cfg, t) && Tallied(cfg, t)
  {
    hide Shape, Tallied, FindAndReset, SendPage, RamPages, OnePass, Drops, BulkNextMarked;
    var b := cfg.blocks[c.block];
    var g := GuestWrote(s, o.writes);
    var f := FindAndReset(g, b, c.offset);
    var p := b.base + f.next;
    FoundPage(cfg, s, c, o);
    PassCases(cfg, s, c, o);
    GuestShape(cfg, s, o.writes);
    SameTally(cfg, s, g);
    if f.next < b.pages {
      BlockPagesInRam(cfg, c.block, p);
      FoundSound(cfg, g, f.state, o, p, c.block, f.next);
    } else {
      UnmarkShape(cfg, g, f.state);
      NoBulkShape(cfg, f.state);
    }
  }

  lemma SameTally(cfg: Config, s: State, t: State)
    requires Tallied(cfg, s) && t.bitmap == s.bitmap && t.count == s.count
    ensures Tallied(cfg, t)
  {
  }

  lemma NoBulkShape(cfg: Config, s: State)
    requires Shape(cfg, s) && Tallied(cfg, s)
    ensures Shape(cfg, s.(bulk := false)) && Tallied(cfg, s.(bulk := false))
  {
  }

  lemma {:induction false} CallSound(cfg: Config, s: State, c: Cursor, os: seq<Observation>, bulkStart: bool)
    requires Shape(cfg, s) && Tallied(cfg, s) && InCall(cfg, s, c, bulkStart) && Calls(cfg, s, c, os)
    ensures Sound(cfg, Ended(LastPass(cfg, s, c, os)))
    decreases |os|
  {
    hide Shape, Tallied, InCall, OnePass, RamPages, Plausible, CursorValid;
    ValidConfig(cfg, s);
    InCallMarked(cfg, s, c, bulkStart, os[0]);
    PassSound(cfg, s, c, os[0]);
    var p := OnePass(cfg, s, c, os[0]);
    if p.done {
      EndsWell(cfg, s, c, os[0], bulkStart);
      EndedShape(cfg, p);
    } else {
      GoesOn(cfg, s, c, os[0], bulkStart);
      CallSound(cfg, p.state, p.cursor, os[1..], bulkStart);
    }
  }

  lemma EndedShape(cfg: Config, p: Pass)
    requires Shape(cfg, p.state) && Tallied(cfg, p.state)
    ensures Shape(cfg, Ended(p)) && Tallied(cfg, Ended(p))
  {
  }

  lemma SyncSound(cfg: Config, s: State)
    requires Sound(cfg, s) && !s.stopped
    ensures Sound(cfg, Synced(cfg, s)) && Sound(cfg, Synced(cfg, s).(stopped := true))
  {
    SyncedMarks(cfg, s);
    hide RamPages, LastPage, Synced, Tallied, CursorValid;
    var t := Synced(cfg, s);
    SyncedOthers(cfg, s);
    SyncedCursor(cfg, s, t);
    SameTally(cfg, t, t.(stopped := true));
  }

  lemma EvictShape(cfg: Config, s: State, pages: set<int>)
    requires Shape(cfg, s)
    ensures Shape(cfg, s.(cache := s.cache - pages))
  {
    hide RamPages, Config.Valid;
  }

  /** Every event keeps the state sound, also a call that loses a page. */
  lemma StepSound(cfg: Config, s: State, e: Event)
    requires Sound(cfg, s) && cfg.word > 0 && Enabled(cfg, s, e)
    ensures Sound(cfg, Step(cfg, s, e))
  {
    hide Shape, Tallied, CursorValid, Calls, LastPass, Synced, InCall;
    match e
    case Guest(writes) =>
      GuestShape(cfg, s, writes);
      MarksKept(cfg, s, GuestWrote(s, writes));
    case SyncBitmap => SyncSound(cfg, s);
    case Save(os) =>
      CallStarts(cfg, s);
      CallSound(cfg, s, Start(s), os, s.bulk);
    case Flush(p, page, writes) =>
      var g := GuestWrote(s, writes);
      GuestShape(cfg, s, writes);
      FlushShape(cfg, g, p, page);
      MarksKept(cfg, s, g.(dst := g.dst[p := page], pending := g.pending - {p}));
    case Evict(pages) =>
      EvictShape(cfg, s, pages);
      MarksKept(cfg, s, s.(cache := s.cache - pages));
    case Stop => SyncSound(cfg, s);
  }

  /** es can happen in order from s and ends in t. */
  ghost predicate Happens(cfg: Config, s: State, es: seq<Event>, t: State)
    requires cfg.word > 0
    decreases |es|
  {
    if es == [] then t == s else Enabled(cfg, s, es[0]) && Happens(cfg, Step(cfg, s, es[0]), es[1..], t)
  }

  lemma {:induction false} RunSound(cfg: Config, s: State, es: seq<Event>, t: State)
    requires Sound(cfg, s) && cfg.word > 0 && Happens(cfg, s, es, t)
    ensures Sound(cfg, t)
    decreases |es|
  {
    hide Sound, Enabled, Step;
    if es != [] {
      StepSound(cfg, s, es[0]);
      RunSound(cfg, Step(cfg, s, es[0]), es[1..], t);
    }
  }

  /** In every state of every run the counter is the number of marked pages in
      RAM, plus the marks beyond its end. */
  lemma CounterTallies(cfg: Config, src: map<int, Page>, dst: map<int, Page>, log: set<int>, es: seq<Event>, t: State)
    requires cfg.Valid() && src.Keys == dst.Keys == RamPages(cfg.blocks) && Sized(cfg, src) && Sized(cfg, dst)
    requires forall q | q in log :: 0 <= q
    requires Happens(cfg, Initial(cfg, src, dst, log), es, t)
    ensures t.count == |Tally(cfg.blocks, t.bitmap)| == |t.bitmap * RamPages(cfg.blocks)| + |Beyond(cfg.blocks, t.bitmap)|
  {
    hide RamPages, LastPage, Happens, Tally, Beyond, Content, Shape, CursorValid;
    InitialInv(cfg, src, dst, log);
    RunSound(cfg, Initial(cfg, src, dst, log), es, t);
    TallySize(cfg.blocks, t.bitmap);
  }
}
