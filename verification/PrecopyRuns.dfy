/** Whole migrations: the invariant over every run, the one exact way to lose
    a page, and equality of both sides at the end. */
module PrecopyRuns {
  import opened Common
  import opened MigrationBitmap
  import opened Precopy
  import opened PrecopySafety
  import opened PrecopySweep

  ghost predicate Sound(cfg: Config, s: State) {
    Shape(cfg, s) && Tallied(cfg, s) && CursorValid(cfg, s)
  }

  ghost predicate Inv(cfg: Config, s: State) {
    Sound(cfg, s) && Content(cfg, s)
  }

  /** The next call of ram_save_block will unmark a page without sending it:
      the bulk stage has just sent the last page of the last block, a block of
      more than one page, and since then that page, and no other, has been
      marked again. */
  ghost predicate LosesPage(cfg: Config, s: State) {
    && s.bulk && s.seen == Some(|cfg.blocks| - 1) && 0 < s.offset == cfg.blocks[|cfg.blocks| - 1].pages - 1
    && s.bitmap * RamPages(cfg.blocks) == {At(cfg, |cfg.blocks| - 1, s.offset)}
  }

  // ---- one call of ram_save_block

  /** The call ends by dropping a page. */
  ghost predicate CallDrops(cfg: Config, s: State, c: Cursor, os: seq<Observation>)
    requires Calls(cfg, s, c, os)
    decreases |os|
  {
    var p := OnePass(cfg, s, c, os[0]);
    if p.done then Drops(cfg, s, c, os[0]) else CallDrops(cfg, p.state, p.cursor, os[1..])
  }

  /** Every call keeps the invariant, unless it drops a page, which only a call
      that starts in the bulk stage can do; and a call that sends nothing
      leaves nothing marked. */
  lemma {:induction false} CallKeeps(cfg: Config, s: State, c: Cursor, os: seq<Observation>, bulkStart: bool)
    requires Shape(cfg, s) && Tallied(cfg, s) && Content(cfg, s) && InCall(cfg, s, c, bulkStart)
    requires Calls(cfg, s, c, os)
    ensures var p := LastPass(cfg, s, c, os);
      Sound(cfg, Ended(p)) &&
      (!p.sentBytes ==> p.state.bitmap * RamPages(cfg.blocks) == {}) &&
      (!CallDrops(cfg, s, c, os) ==> Content(cfg, Ended(p)))
    ensures CallDrops(cfg, s, c, os) ==> bulkStart
    decreases |os|
  {
    hide Shape, Tallied, Content, InCall, OnePass, RamPages, Plausible, CursorValid;
    ValidConfig(cfg, s);
    InCallMarked(cfg, s, c, bulkStart, os[0]);
    PassKeeps(cfg, s, c, os[0]);
    var p := OnePass(cfg, s, c, os[0]);
    if p.done {
      EndsWell(cfg, s, c, os[0], bulkStart);
      EndedKeeps(cfg, p);
      if !p.sentBytes {
        LinearExit(cfg, s, c, os[0], bulkStart);
      } else {
        SentNotDropped(cfg, s, c, os[0]);
      }
    } else {
      GoingOnNotDropped(cfg, s, c, os[0]);
      GoesOn(cfg, s, c, os[0], bulkStart);
      CallKeeps(cfg, p.state, p.cursor, os[1..], bulkStart);
    }
  }

  lemma ValidConfig(cfg: Config, s: State)
    requires Shape(cfg, s)
    ensures cfg.Valid()
  {
  }

  lemma EndedKeeps(cfg: Config, p: Pass)
    requires Shape(cfg, p.state) && Tallied(cfg, p.state)
    ensures Shape(cfg, Ended(p)) && Tallied(cfg, Ended(p))
    ensures Content(cfg, p.state) ==> Content(cfg, Ended(p))
  {
    hide RamPages, LastPage;
    if Content(cfg, p.state) {
      forall q | q in RamPages(cfg.blocks)
        ensures SafePage(Ended(p), q) && CachedPage(Ended(p), q)
      {
        assert SafePage(p.state, q) && CachedPage(p.state, q);
      }
    }
  }

  lemma SentNotDropped(cfg: Config, s: State, c: Cursor, o: Observation)
    requires c.block < |cfg.blocks| && OnePass(cfg, s, c, o).sentBytes
    ensures !Drops(cfg, s, c, o)
  {
    hide FindAndReset, SendPage;
  }

  lemma GoingOnNotDropped(cfg: Config, s: State, c: Cursor, o: Observation)
    requires c.block < |cfg.blocks| && !OnePass(cfg, s, c, o).done
    ensures !Drops(cfg, s, c, o)
  {
    hide FindAndReset, SendPage;
  }

  // ---- the lost page, exactly

  /** After the bulk stage, a round that finds only the skipped page marked
      drops it. */
  lemma {:induction false} RoundDrops(cfg: Config, s: State, c: Cursor, os: seq<Observation>)
    requires cfg.Valid() && InCall(cfg, s, c, true) && !s.bulk && Calls(cfg, s, c, os)
    requires s.bitmap * RamPages(cfg.blocks) == {At(cfg, StartBlock(s), s.offset)}
    ensures CallDrops(cfg, s, c, os)
    decreases |os|
  {
    hide OnePass, RamPages, Plausible, Kind, Swept;
    PassFrame(cfg, s, c, os[0]);
    PassOutcome(cfg, s, c, os[0]);
    PassKind(cfg, s, c, os[0]);
    LinearFinds(cfg, s, c, os[0]);
    var p := OnePass(cfg, s, c, os[0]);
    if p.done {
      OnlySkippedIsExit(cfg, s, c, os[0]);
      LinearExit(cfg, s, c, os[0], true);
    } else {
      GoesOn(cfg, s, c, os[0], true);
      hide InCall, Framed;
      RoundDrops(cfg, p.state, p.cursor, os[1..]);
    }
  }

  lemma OnlySkippedIsExit(cfg: Config, s: State, c: Cursor, o: Observation)
    requires cfg.Valid() && InCall(cfg, s, c, true) && !s.bulk && OnePass(cfg, s, c, o).done
    requires s.bitmap * RamPages(cfg.blocks) == {At(cfg, StartBlock(s), s.offset)}
    ensures Kind(cfg, s, c, o).Exit?
  {
    PassOutcome(cfg, s, c, o);
    PassKind(cfg, s, c, o);
    LinearFinds(cfg, s, c, o);
    var b := cfg.blocks[c.block];
    var f := FindAndReset(GuestWrote(s, o.writes), b, c.offset);
    hide OnePass, Kind, FindAndReset, RamPages, Swept;
    if f.next < b.pages {
      BlockPagesInRam(cfg, c.block, At(cfg, c.block, f.next));
      assert At(cfg, c.block, f.next) in s.bitmap * RamPages(cfg.blocks);
      if c.block != StartBlock(s) || f.next != s.offset {
        PagesDistinct(cfg, c.block, f.next, StartBlock(s), s.offset);
        assert false;
      }
    }
  }

  /** In the bulk stage the first pass sends, moves on to a block whose first
      page is marked, or ends the stage. */
  lemma FirstBulkPass(cfg: Config, s: State, o: Observation)
    requires cfg.Valid() && InCall(cfg, s, Start(s), true) && s.bulk
    ensures var p := OnePass(cfg, s, Start(s), o);
      (LosesPage(cfg, s) ==> !p.done && !p.state.bulk && p.cursor.round) &&
      (p.done ==> p.sentBytes) &&
      (!p.done && !p.state.bulk ==>
         s.seen == Some(|cfg.blocks| - 1) && s.offset == cfg.blocks[|cfg.blocks| - 1].pages - 1 &&
         (s.offset == 0 ==> At(cfg, |cfg.blocks| - 1, s.offset) !in s.bitmap))
  {
    var c := Start(s);
    PassFrame(cfg, s, c, o);
    PassOutcome(cfg, s, c, o);
    PassKind(cfg, s, c, o);
    BulkFinds(cfg, s, c, o);
    hide OnePass, Kind;
  }

  lemma FreshBlockSends(cfg: Config, s: State, c: Cursor, o: Observation)
    requires cfg.Valid() && InCall(cfg, s, c, true) && s.bulk && c.block > StartBlock(s)
    ensures OnePass(cfg, s, c, o).done && OnePass(cfg, s, c, o).sentBytes
  {
    PassOutcome(cfg, s, c, o);
    PassKind(cfg, s, c, o);
    BulkFinds(cfg, s, c, o);
    hide OnePass, Kind, FindAndReset;
  }

  /** A call that starts in the bulk stage drops a page if and only if the
      state before it is the losing one. */
  lemma BulkCallDropsIff(cfg: Config, s: State, os: seq<Observation>)
    requires Shape(cfg, s) && CursorValid(cfg, s) && s.bulk && Calls(cfg, s, Start(s), os)
    ensures CallDrops(cfg, s, Start(s), os) <==> LosesPage(cfg, s)
  {
    hide OnePass, RamPages, Plausible, Swept, BulkAhead;
    CallStarts(cfg, s);
    var c := Start(s);
    FirstBulkPass(cfg, s, os[0]);
    var p := OnePass(cfg, s, c, os[0]);
    if p.done {
      SentNotDropped(cfg, s, c, os[0]);
    } else {
      GoesOn(cfg, s, c, os[0], true);
      PassFrame(cfg, s, c, os[0]);
      if p.state.bulk {
        StillBulk(cfg, s, c, os[0]);
        FreshBlockSends(cfg, p.state, p.cursor, os[1]);
        SentNotDropped(cfg, p.state, p.cursor, os[1]);
      } else {
        RoundDropsIff(cfg, p.state, p.cursor, os[1..]);
      }
    }
  }

  lemma StillBulk(cfg: Config, s: State, c: Cursor, o: Observation)
    requires cfg.Valid() && InCall(cfg, s, c, true) && s.bulk && !OnePass(cfg, s, c, o).done && OnePass(cfg, s, c, o).state.bulk
    ensures OnePass(cfg, s, c, o).cursor.block > StartBlock(s)
  {
    PassFrame(cfg, s, c, o);
    PassOutcome(cfg, s, c, o);
    BulkFinds(cfg, s, c, o);
    hide OnePass, Kind, FindAndReset, BulkAhead;
  }

  lemma {:induction false} RoundDropsIff(cfg: Config, s: State, c: Cursor, os: seq<Observation>)
    requires cfg.Valid() && InCall(cfg, s, c, true) && !s.bulk && Calls(cfg, s, c, os)
    ensures CallDrops(cfg, s, c, os) <==> s.bitmap * RamPages(cfg.blocks) == {At(cfg, StartBlock(s), s.offset)}
    decreases |os|
  {
    hide OnePass, RamPages, Plausible, Kind, Swept;
    if s.bitmap * RamPages(cfg.blocks) == {At(cfg, StartBlock(s), s.offset)} {
      RoundDrops(cfg, s, c, os);
    } else {
      var p := OnePass(cfg, s, c, os[0]);
      PassFrame(cfg, s, c, os[0]);
      if p.done {
        EndsWell(cfg, s, c, os[0], true);
        if p.sentBytes {
          SentNotDropped(cfg, s, c, os[0]);
        } else {
          LinearExit(cfg, s, c, os[0], true);
        }
      } else {
        GoesOn(cfg, s, c, os[0], true);
        hide InCall, Framed;
        RoundDropsIff(cfg, p.state, p.cursor, os[1..]);
      }
    }
  }

  // ---- every event

  /** A call of ram_save_block keeps the invariant if and only if it does not
      lose a page that needed sending. */
  lemma SaveKeeps(cfg: Config, s: State, os: seq<Observation>)
    requires Inv(cfg, s) && Calls(cfg, s, Start(s), os)
    ensures var p := LastPass(cfg, s, Start(s), os);
      Sound(cfg, Ended(p)) &&
      (!LosesPage(cfg, s) ==> Content(cfg, Ended(p))) &&
      (!p.sentBytes ==> p.state.bitmap * RamPages(cfg.blocks) == {})
  {
    hide Shape, Tallied, Content, Calls, LastPass, LosesPage;
    ValidConfig(cfg, s);
    CallStarts(cfg, s);
    CallKeeps(cfg, s, Start(s), os, s.bulk);
    if s.bulk {
      BulkCallDropsIff(cfg, s, os);
    }
  }

  lemma SyncedMarks(cfg: Config, s: State)
    requires Shape(cfg, s) && Tallied(cfg, s)
    ensures var t := Synced(cfg, s);
      Tallied(cfg, t) && s.bitmap <= t.bitmap &&
      t.bitmap * RamPages(cfg.blocks) == (s.bitmap + s.log) * RamPages(cfg.blocks) &&
      t.log <= s.log && t.log * RamPages(cfg.blocks) == {}
  {
    var m := Marks(s.bitmap, s.log, s.count);
    hide RamPages, LastPage, Sync, Tally;
    SyncTallies(cfg.blocks, m, cfg.word);
  }

  lemma SyncKeeps(cfg: Config, s: State)
    requires Inv(cfg, s) && !s.stopped
    ensures Inv(cfg, Synced(cfg, s)) && Synced(cfg, s).log * RamPages(cfg.blocks) == {}
    ensures Inv(cfg, Synced(cfg, s).(stopped := true))
  {
    SyncedMarks(cfg, s);
    hide RamPages, LastPage, Synced, Tallied, Content, CursorValid;
    var t := Synced(cfg, s);
    assert t == s.(bitmap := t.bitmap, log := t.log, count := t.count) by {
      SyncedOthers(cfg, s);
    }
    SyncedCursor(cfg, s, t);
    SyncedContent(cfg, s, t);
  }

  lemma SyncedOthers(cfg: Config, s: State)
    requires cfg.word > 0
    ensures var t := Synced(cfg, s); t == s.(bitmap := t.bitmap, log := t.log, count := t.count)
  {
  }

  lemma SyncedCursor(cfg: Config, s: State, t: State)
    requires CursorValid(cfg, s) && t == s.(bitmap := t.bitmap, log := t.log, count := t.count) && s.bitmap <= t.bitmap
    ensures CursorValid(cfg, t) && CursorValid(cfg, t.(stopped := true))
  {
  }

  lemma SyncedContent(cfg: Config, s: State, t: State)
    requires Content(cfg, s) && !s.stopped && t == s.(bitmap := t.bitmap, log := t.log, count := t.count)
    requires t.bitmap * RamPages(cfg.blocks) == (s.bitmap + s.log) * RamPages(cfg.blocks)
    ensures Content(cfg, t) && Content(cfg, t.(stopped := true))
  {
    hide RamPages;
    forall p | p in RamPages(cfg.blocks)
      ensures SafePage(t, p) && CachedPage(t, p) && SafePage(t.(stopped := true), p) && CachedPage(t.(stopped := true), p)
    {
      assert SafePage(s, p) && CachedPage(s, p);
      assert p in t.bitmap <==> p in t.bitmap * RamPages(cfg.blocks);
      assert p in (s.bitmap + s.log) * RamPages(cfg.blocks) <==> p in s.bitmap || p in s.log;
    }
  }

  /** Marks and cursor depend on these fields only. */
  lemma MarksKept(cfg: Config, s: State, t: State)
    requires Tallied(cfg, s) && CursorValid(cfg, s)
    requires t.bitmap == s.bitmap && t.count == s.count && t.bulk == s.bulk && t.seen == s.seen && t.offset == s.offset
    ensures Tallied(cfg, t) && CursorValid(cfg, t)
  {
    hide RamPages, LastPage;
    assert StartBlock(t) == StartBlock(s) && Start(t) == Start(s);
    if s.bulk {
      assert BulkAhead(cfg, t, Start(t));
    }
  }

  /** g is the state after the guest writes of the flush. */
  lemma FlushContent(cfg: Config, g: State, p: int, page: Page)
    requires Content(cfg, g) && p in g.pending && p in g.src && (p in g.log || page == g.src[p])
    ensures Content(cfg, g.(dst := g.dst[p := page], pending := g.pending - {p}))
  {
    var t := g.(dst := g.dst[p := page], pending := g.pending - {p});
    hide RamPages;
    forall q | q in RamPages(cfg.blocks)
      ensures SafePage(t, q) && CachedPage(t, q)
    {
      assert SafePage(g, q) && CachedPage(g, q);
    }
  }

  lemma FlushShape(cfg: Config, s: State, p: int, page: Page)
    requires Shape(cfg, s) && p in s.pending && p in s.src && |page| == cfg.pageSize
    ensures Shape(cfg, s.(dst := s.dst[p := page], pending := s.pending - {p}))
  {
    hide RamPages, LastPage, Config.Valid;
    assert s.dst[p := page].Keys == s.dst.Keys;
  }

  lemma FlushKeeps(cfg: Config, s: State, p: int, page: Page, writes: map<int, Page>)
    requires Inv(cfg, s) && cfg.word > 0 && Enabled(cfg, s, Flush(p, page, writes))
    ensures Inv(cfg, Step(cfg, s, Flush(p, page, writes)))
  {
    hide Shape, Tallied, Content, CursorValid;
    var g := GuestWrote(s, writes);
    GuestKeeps(cfg, s, writes);
    MarksKept(cfg, s, g);
    FlushContent(cfg, g, p, page);
    FlushShape(cfg, g, p, page);
    MarksKept(cfg, g, g.(dst := g.dst[p := page], pending := g.pending - {p}));
  }

  lemma EvictContent(cfg: Config, s: State, pages: set<int>)
    requires Content(cfg, s) && Shape(cfg, s)
    ensures Content(cfg, s.(cache := s.cache - pages)) && Shape(cfg, s.(cache := s.cache - pages))
  {
    var t := s.(cache := s.cache - pages);
    hide RamPages, LastPage;
    forall q | q in RamPages(cfg.blocks)
      ensures SafePage(t, q) && CachedPage(t, q)
    {
      assert SafePage(s, q) && CachedPage(s, q);
    }
  }

  lemma EvictKeeps(cfg: Config, s: State, pages: set<int>)
    requires Inv(cfg, s)
    ensures Inv(cfg, s.(cache := s.cache - pages))
  {
    hide Shape, Tallied, Content, CursorValid;
    EvictContent(cfg, s, pages);
    MarksKept(cfg, s, s.(cache := s.cache - pages));
  }

  lemma GuestEventKeeps(cfg: Config, s: State, writes: map<int, Page>)
    requires Inv(cfg, s) && !s.stopped && writes.Keys <= s.src.Keys && Sized(cfg, writes)
    ensures Inv(cfg, GuestWrote(s, writes))
  {
    hide Shape, Tallied, Content, CursorValid;
    GuestKeeps(cfg, s, writes);
    MarksKept(cfg, s, GuestWrote(s, writes));
  }

  /** Every event keeps the invariant, given that no call of ram_save_block
      starts in the losing state. */
  lemma StepKeeps(cfg: Config, s: State, e: Event)
    requires Inv(cfg, s) && cfg.word > 0 && Enabled(cfg, s, e) && (e.Save? ==> !LosesPage(cfg, s))
    ensures Inv(cfg, Step(cfg, s, e))
  {
    hide Sound, Content, Calls, LastPass, Synced, LosesPage;
    match e
    case Guest(writes) => GuestEventKeeps(cfg, s, writes);
    case SyncBitmap => SyncKeeps(cfg, s);
    case Save(os) => SaveKeeps(cfg, s, os);
    case Flush(p, page, writes) => FlushKeeps(cfg, s, p, page, writes);
    case Evict(pages) => EvictKeeps(cfg, s, pages);
    case Stop => SyncKeeps(cfg, s);
  }

  // ---- whole runs

  /** es can happen in order from s and ends in t, and no call of
      ram_save_block starts in the losing state. */
  ghost predicate Leads(cfg: Config, s: State, es: seq<Event>, t: State)
    requires cfg.word > 0
    decreases |es|
  {
    if es == [] then t == s
    else Enabled(cfg, s, es[0]) && (es[0].Save? ==> !LosesPage(cfg, s)) && Leads(cfg, Step(cfg, s, es[0]), es[1..], t)
  }

  lemma {:induction false} RunKeeps(cfg: Config, s: State, es: seq<Event>, t: State)
    requires Inv(cfg, s) && cfg.word > 0 && Leads(cfg, s, es, t)
    ensures Inv(cfg, t)
    decreases |es|
  {
    hide Inv, Enabled, Step, LosesPage;
    if es != [] {
      StepKeeps(cfg, s, es[0]);
      RunKeeps(cfg, Step(cfg, s, es[0]), es[1..], t);
    }
  }

  lemma InitialTally(blocks: seq<RamBlock>)
    ensures var bits := Range(0, LastPage(blocks));
      RamPages(blocks) <= bits && GapsMarked(blocks, bits) && |RamPages(blocks)| == |Tally(blocks, bits)|
  {
    var bits := Range(0, LastPage(blocks));
    RamBelowEnd(blocks);
    RamNonNegative(blocks);
    hide RamPages, LastPage;
    assert bits * RamPages(blocks) == RamPages(blocks);
    assert Beyond(blocks, bits) == {};
    TallySize(blocks, bits);
  }

  lemma InitialMarks(cfg: Config, src: map<int, Page>, dst: map<int, Page>, log: set<int>)
    requires cfg.Valid()
    ensures var s := Initial(cfg, src, dst, log);
      Tallied(cfg, s) && CursorValid(cfg, s) && RamPages(cfg.blocks) <= s.bitmap
  {
    var s := Initial(cfg, src, dst, log);
    InitialTally(cfg.blocks);
    hide RamPages, LastPage, Tally, GapsMarked;
    forall k: nat, i: nat | k < |cfg.blocks| && i < cfg.blocks[k].pages
      ensures At(cfg, k, i) in s.bitmap
    {
      BlockPagesInRam(cfg, k, At(cfg, k, i));
    }
    assert At(cfg, 0, 0) in s.bitmap;
    assert BulkAhead(cfg, s, Start(s));
  }

  lemma InitialInv(cfg: Config, src: map<int, Page>, dst: map<int, Page>, log: set<int>)
    requires cfg.Valid() && src.Keys == dst.Keys == RamPages(cfg.blocks) && Sized(cfg, src) && Sized(cfg, dst)
    requires forall p | p in log :: 0 <= p
    ensures Inv(cfg, Initial(cfg, src, dst, log))
  {
    InitialMarks(cfg, src, dst, log);
    hide RamPages, LastPage, Tallied, CursorValid, Config.Valid, Content;
    var s := Initial(cfg, src, dst, log);
    assert Shape(cfg, s);
    AllMarkedSafe(cfg, s);
  }

  lemma AllMarkedSafe(cfg: Config, s: State)
    requires s.src.Keys == s.dst.Keys == RamPages(cfg.blocks) <= s.bitmap && s.cache == map[]
    ensures Content(cfg, s)
  {
    hide RamPages;
  }

  /** Safety of the whole migration.  In every state of every run, each page
      is equal on both sides, on its way, or still marked; the counter is the
      number of marked pages in RAM, plus the marks beyond the end of RAM; and
      a cached page that may still be encoded against is what the destination
      has. */
  lemma MigrationSafe(cfg: Config, src: map<int, Page>, dst: map<int, Page>, log: set<int>, es: seq<Event>, t: State, p: int)
    requires cfg.Valid() && src.Keys == dst.Keys == RamPages(cfg.blocks) && Sized(cfg, src) && Sized(cfg, dst)
    requires forall q | q in log :: 0 <= q
    requires Leads(cfg, Initial(cfg, src, dst, log), es, t)
    ensures t.count == |Tally(cfg.blocks, t.bitmap)|
    ensures t.count == |t.bitmap * RamPages(cfg.blocks)| <==> Beyond(cfg.blocks, t.bitmap) == {}
    ensures p in RamPages(cfg.blocks) ==> SafePage(t, p) && CachedPage(t, p)
  {
    hide RamPages, LastPage, Leads, Tally, Beyond;
    InitialInv(cfg, src, dst, log);
    RunKeeps(cfg, Initial(cfg, src, dst, log), es, t);
    TallyIsRamIff(cfg.blocks, t.bitmap);
  }

  /** Completion: once the guest is stopped and ram_save_block has returned 0,
      every page that is not merely waiting for the final flush is equal on
      both sides; after the flush, all of RAM is. */
  lemma MigrationCompletes(cfg: Config, src: map<int, Page>, dst: map<int, Page>, log: set<int>,
                           es: seq<Event>, s: State, os: seq<Observation>)
    requires cfg.Valid() && src.Keys == dst.Keys == RamPages(cfg.blocks) && Sized(cfg, src) && Sized(cfg, dst)
    requires forall q | q in log :: 0 <= q
    requires Leads(cfg, Initial(cfg, src, dst, log), es, s) && s.stopped && !LosesPage(cfg, s)
    requires Calls(cfg, s, Start(s), os) && !LastPass(cfg, s, Start(s), os).sentBytes
    ensures Settled(cfg, Ended(LastPass(cfg, s, Start(s), os)))
  {
    hide RamPages, LastPage, Leads, Calls, LastPass, LosesPage, Settled, Sound, Content;
    InitialInv(cfg, src, dst, log);
    RunKeeps(cfg, Initial(cfg, src, dst, log), es, s);
    SaveKeeps(cfg, s, os);
    CallStopped(cfg, s, Start(s), os);
    AllSettled(cfg, Ended(LastPass(cfg, s, Start(s), os)));
  }

  /** Nothing is left to send, and without pages waiting for a flush both
      sides are the same. */
  ghost predicate Settled(cfg: Config, t: State) {
    && (forall p | p in RamPages(cfg.blocks) && p !in t.pending :: p in t.src && p in t.dst && t.dst[p] == t.src[p])
    && (t.pending == {} ==> t.dst == t.src)
  }

  lemma AllSettled(cfg: Config, t: State)
    requires Inv(cfg, t) && t.bitmap * RamPages(cfg.blocks) == {} && t.stopped
    ensures Settled(cfg, t)
  {
    hide RamPages, LastPage, Tallied, CursorValid;
    forall p | p in RamPages(cfg.blocks) && p !in t.pending
      ensures p in t.src && p in t.dst && t.dst[p] == t.src[p]
    {
      assert SafePage(t, p);
      assert p !in t.bitmap * RamPages(cfg.blocks) && p !in t.log * RamPages(cfg.blocks);
    }
  }

  lemma {:induction false} CallStopped(cfg: Config, s: State, c: Cursor, os: seq<Observation>)
    requires Calls(cfg, s, c, os)
    ensures LastPass(cfg, s, c, os).state.stopped == s.stopped
    decreases |os|
  {
    hide OnePass, Plausible;
    PassFrame(cfg, s, c, os[0]);
    var p := OnePass(cfg, s, c, os[0]);
    if !p.done {
      CallStopped(cfg, p.state, p.cursor, os[1..]);
    }
  }
}
