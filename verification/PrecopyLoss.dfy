/** A concrete migration that loses a page: one block of two pages, sent in
    bulk; then the guest writes the second page and the bitmap is synced
    before the bulk stage has ended. */
module PrecopyLoss {
  import opened Common
  import opened MigrationBitmap
  import opened Precopy
  import opened PrecopySafety
  import opened PrecopySweep
  import opened PrecopyRuns
  import opened PrecopyEnds

  predicate TwoPages(cfg: Config) {
    cfg == Config([RamBlock("pc.ram", 0, 2)], 2, 64, false)
  }

  lemma TwoPagesRam(cfg: Config)
    requires TwoPages(cfg)
    ensures cfg.Valid() && RamPages(cfg.blocks) == {0, 1} && LastPage(cfg.blocks) == 2
    ensures |cfg.blocks| == 1 && cfg.blocks[0].base == 0 && cfg.blocks[0].pages == 2 && cfg.pageSize == 2
  {
    hide Homed, Covered;
    var b := cfg.blocks[0];
    assert cfg.blocks[1..] == [];
    OneWord(b);
    IndexableHomed(cfg.blocks, cfg.word);
    forall p
      ensures p in RamPages(cfg.blocks) <==> p in {0, 1}
    {
      InRamSplit(cfg.blocks, p);
    }
  }

  /** The thread sees page p as it is. */
  function Quiet(s: State, p: int): Observation
    requires p in s.src
  {
    Observation(map[], s.src[p], s.src[p], s.src[p], true, {})
  }

  /** One call in the bulk stage sends page p. */
  lemma BulkSave(cfg: Config, s: State, p: int, o: Observation)
    requires TwoPages(cfg) && s.bulk && s.offset == 0 && (s.seen == None || s.seen == Some(0)) && !s.stopped
    requires p in {0, 1} && s.bitmap == Range(p, 2) && s.src.Keys == {0, 1} && s.cache == map[]
    requires Sized(cfg, s.src) && s.src[p] != Zero(cfg) && o == Quiet(s, p)
    ensures Calls(cfg, s, Start(s), [o])
    ensures var t := Ended(LastPass(cfg, s, Start(s), [o]));
      t.bulk && t.seen == Some(0) && t.offset == p && !t.stopped && t.bitmap == Range(p + 1, 2) &&
      t.src == s.src && t.dst == s.dst && t.log == s.log && t.pending == s.pending + {p} && t.cache == map[]
  {
    var c := Start(s);
    var g := GuestWrote(s, o.writes);
    assert g == s by {
      assert s.src + map[] == s.src && s.log + o.writes.Keys == s.log;
    }
    var f := FindAndReset(s, cfg.blocks[0], 0);
    FindsFirst(s.bitmap, p);
    assert f.next == p && f.state.bitmap == Range(p + 1, 2);
    var pass := OnePass(cfg, s, c, o);
    assert pass.done && pass.state == Deliver(f.state, p, 0, p, LatePage);
    assert Calls(cfg, s, c, [o]);
  }

  lemma FindsFirst(bits: set<int>, p: int)
    requires p in {0, 1} && bits == Range(p, 2)
    ensures FindNext(bits, 2, 0) == p && bits - {p} == Range(p + 1, 2)
  {
    var x := FindNext(bits, 2, 0);
    assert p in bits;
    assert x != p ==> x > p || x !in bits;
  }

  lemma LeadsCons(cfg: Config, s: State, e: Event, es: seq<Event>, t: State)
    requires cfg.word > 0 && Enabled(cfg, s, e) && (e.Save? ==> !LosesPage(cfg, s)) && Leads(cfg, Step(cfg, s, e), es, t)
    ensures Leads(cfg, s, [e] + es, t)
  {
    hide Enabled, Step, LosesPage;
    assert ([e] + es)[1..] == es;
  }

  /** Both pages have been sent and have arrived; the bulk stage has not ended. */
  predicate JustSent(cfg: Config, s: State) {
    TwoPages(cfg) && s.bulk && s.seen == Some(0) && s.offset == 1 && !s.stopped && s.bitmap == {} && s.log == {} &&
    s.pending == {} && s.cache == map[] && s.src.Keys == {0, 1} == s.dst.Keys && s.dst == s.src && Sized(cfg, s.src)
  }

  /** The guest has written page 1 since. */
  predicate Rewritten(cfg: Config, s: State) {
    s.bulk && s.seen == Some(0) && s.offset == 1 && !s.stopped && s.pending == {} && s.cache == map[] &&
    s.src.Keys == {0, 1} == s.dst.Keys && s.dst[1] != s.src[1] && Sized(cfg, s.src)
  }

  lemma GuestRewrites(cfg: Config, s: State, a: Page)
    requires JustSent(cfg, s) && |a| == 2 && a != s.src[1]
    ensures var g := GuestWrote(s, map[1 := a]);
      Rewritten(cfg, g) && g.log == {1} && g.bitmap == {} && cfg.word > 0
  {
    var g := GuestWrote(s, map[1 := a]);
    assert g.src[1] == a && g.src.Keys == {0, 1};
  }

  lemma SyncLoses(cfg: Config, g: State)
    requires cfg.word > 0 && |cfg.blocks| == 1 && cfg.blocks[0].base == 0 && cfg.blocks[0].pages == 2
    requires RamPages(cfg.blocks) == {0, 1} && Homed(cfg.blocks, cfg.word)
    requires Rewritten(cfg, g) && g.log == {1} && g.bitmap == {}
    ensures var t := Synced(cfg, g); Rewritten(cfg, t) && t.log == {} && t.bitmap == {1} && LosesPage(cfg, t)
  {
    hide RamPages, InRam, Synced, Rewritten, Homed;
    SyncOne(cfg, g);
    SyncedOthers(cfg, g);
    SameRewritten(cfg, g, Synced(cfg, g));
    IsLosing(cfg, Synced(cfg, g));
  }

  lemma IsLosing(cfg: Config, t: State)
    requires |cfg.blocks| == 1 && cfg.blocks[0].base == 0 && cfg.blocks[0].pages == 2 && RamPages(cfg.blocks) == {0, 1}
    requires t.bulk && t.seen == Some(0) && t.offset == 1 && t.bitmap == {1}
    ensures LosesPage(cfg, t)
  {
    hide RamPages, InRam;
    assert {1} * {0, 1} == {1};
  }

  lemma SameRewritten(cfg: Config, g: State, t: State)
    requires Rewritten(cfg, g) && t == g.(bitmap := t.bitmap, log := t.log, count := t.count)
    ensures Rewritten(cfg, t) && t.bulk && t.seen == Some(0) && t.offset == 1
  {
  }

  lemma SyncOne(cfg: Config, g: State)
    requires cfg.word > 0 && Homed(cfg.blocks, cfg.word) && 1 in RamPages(cfg.blocks) && g.bitmap == {} && g.log == {1}
    ensures Synced(cfg, g).bitmap == {1} && Synced(cfg, g).log == {}
  {
    hide RamPages, LastPage, Sync, CoveredAll, Homed;
    var m := Marks(g.bitmap, g.log, g.count);
    SyncMoves(m, cfg.blocks, cfg.word);
    CoversRam(cfg.blocks, cfg.word);
    assert 1 in CoveredAll(cfg.blocks, cfg.word);
    assert m.log * CoveredAll(cfg.blocks, cfg.word) == {1};
    assert m.log - CoveredAll(cfg.blocks, cfg.word) == {};
  }

  /** The call after that: one pass ends the bulk stage, the next finds page 1
      at the place the call started from, unmarks it and ends the call. */
  lemma LosingCall(cfg: Config, s: State, o: Observation)
    requires TwoPages(cfg) && Rewritten(cfg, s) && s.bitmap == {1} && s.log == {}
    requires o == Quiet(s, 1)
    ensures Calls(cfg, s, Start(s), [o, o])
    ensures !SafePage(Ended(LastPass(cfg, s, Start(s), [o, o])), 1)
  {
    assert s.src + map[] == s.src && s.log + o.writes.Keys == s.log;
    assert GuestWrote(s, o.writes) == s;
    var p1 := OnePass(cfg, s, Start(s), o);
    assert !p1.done && p1.state == s.(bulk := false) && p1.cursor == Cursor(0, 0, true);
    var s1 := p1.state;
    assert s1.src + map[] == s1.src && s1.log + o.writes.Keys == s1.log;
    assert GuestWrote(s1, o.writes) == s1;
    assert {1} == Range(1, 2);
    FindsFirst(s1.bitmap, 1);
    var p2 := OnePass(cfg, s1, p1.cursor, o);
    assert p2.done && p2.state == s1.(bitmap := p2.state.bitmap, count := p2.state.count) && 1 !in p2.state.bitmap;
    assert [o, o][1..] == [o];
    assert Calls(cfg, s1, p1.cursor, [o]);
  }

  /** From the start of a migration a run leads to a call that loses a page:
      afterwards page 1 differs, and nothing will ever send it. */
  lemma PageIsLost(cfg: Config, src: map<int, Page>, dst: map<int, Page>, a: Page)
    returns (es: seq<Event>, s: State, os: seq<Observation>)
    requires TwoPages(cfg) && src.Keys == dst.Keys == {0, 1} && Sized(cfg, src) && Sized(cfg, dst)
    requires src[0] != Zero(cfg) && src[1] != Zero(cfg) && |a| == 2 && a != src[1]
    ensures cfg.word > 0 && Leads(cfg, Initial(cfg, src, dst, {}), es, s) && LosesPage(cfg, s)
    ensures Calls(cfg, s, Start(s), os) && !SafePage(Ended(LastPass(cfg, s, Start(s), os)), 1)
  {
    hide Homed;
    TwoPagesRam(cfg);
    var s0 := Initial(cfg, src, dst, {});
    var o0, o1 := Quiet(s0, 0), Quiet(s0, 1);
    var s2;
    s2 := SendBoth(cfg, s0, o0, o1);
    hide Initial;
    es, s := BothArrive(cfg, s2, a);
    os := [Quiet(s, 1), Quiet(s, 1)];
    LosingCall(cfg, s, Quiet(s, 1));
    hide Calls, LosesPage;
    PrependSaves(cfg, s0, o0, o1, s2, es, s);
    es := [Save([o0])] + ([Save([o1])] + es);
  }

  lemma SendBoth(cfg: Config, s0: State, o0: Observation, o1: Observation) returns (s2: State)
    requires TwoPages(cfg) && s0.bulk && s0.seen == None && s0.offset == 0 && !s0.stopped && s0.bitmap == Range(0, 2)
    requires s0.src.Keys == {0, 1} == s0.dst.Keys && Sized(cfg, s0.src) && s0.cache == map[] && s0.log == {} && s0.pending == {}
    requires s0.src[0] != Zero(cfg) && s0.src[1] != Zero(cfg) && o0 == Quiet(s0, 0) && o1 == Quiet(s0, 1)
    ensures Calls(cfg, s0, Start(s0), [o0])
    ensures var s1 := Ended(LastPass(cfg, s0, Start(s0), [o0]));
      s1.bitmap == {1} && s1.seen == Some(0) && s1.offset == 0 && Calls(cfg, s1, Start(s1), [o1]) &&
      s2 == Ended(LastPass(cfg, s1, Start(s1), [o1]))
    ensures s2.bulk && s2.seen == Some(0) && s2.offset == 1 && !s2.stopped && s2.bitmap == {} && s2.log == {}
    ensures s2.pending == {0, 1} && s2.cache == map[] && s2.src == s0.src && s2.dst == s0.dst
  {
    hide Calls, LastPass;
    BulkSave(cfg, s0, 0, o0);
    var s1 := Ended(LastPass(cfg, s0, Start(s0), [o0]));
    assert Range(1, 2) == {1} && Range(2, 2) == {};
    BulkSave(cfg, s1, 1, o1);
    s2 := Ended(LastPass(cfg, s1, Start(s1), [o1]));
  }

  lemma PrependSaves(cfg: Config, s0: State, o0: Observation, o1: Observation, s2: State, es: seq<Event>, t: State)
    requires TwoPages(cfg) && s0.seen == None && Calls(cfg, s0, Start(s0), [o0])
    requires var s1 := Ended(LastPass(cfg, s0, Start(s0), [o0]));
      s1.offset == 0 && Calls(cfg, s1, Start(s1), [o1]) && s2 == Ended(LastPass(cfg, s1, Start(s1), [o1]))
    requires Leads(cfg, s2, es, t)
    ensures Leads(cfg, s0, [Save([o0])] + ([Save([o1])] + es), t)
  {
    hide Calls, LastPass;
    var s1 := Ended(LastPass(cfg, s0, Start(s0), [o0]));
    LeadsCons(cfg, s1, Save([o1]), es, t);
    LeadsCons(cfg, s0, Save([o0]), [Save([o1])] + es, t);
  }

  lemma BothArrive(cfg: Config, s: State, a: Page) returns (es: seq<Event>, t: State)
    requires TwoPages(cfg) && s.bulk && s.seen == Some(0) && s.offset == 1 && !s.stopped && s.bitmap == {} && s.log == {}
    requires s.pending == {0, 1} && s.cache == map[] && s.src.Keys == {0, 1} == s.dst.Keys && Sized(cfg, s.src)
    requires |a| == 2 && a != s.src[1]
    ensures cfg.word > 0 && Leads(cfg, s, es, t) && LosesPage(cfg, t)
    ensures Rewritten(cfg, t) && t.bitmap == {1} && t.log == {}
  {
    TwoPagesRam(cfg);
    var f0, f1 := FlushBoth(cfg, s);
    hide RamPages, InRam, Synced, LosesPage, Rewritten;
    GuestRewrites(cfg, f1, a);
    var g := GuestWrote(f1, map[1 := a]);
    SyncLoses(cfg, g);
    t := Synced(cfg, g);
    GuestThenSync(cfg, f1, g, a);
    hide JustSent, Step, Enabled;
    es := FourEvents(cfg, s, f0, f1, g, t, a);
  }

  /** A flush during which the guest does nothing. */
  function QuietFlush(s: State, p: int): Event
    requires p in s.src
  {
    Flush(p, s.src[p], map[])
  }

  lemma NoWrites(s: State)
    ensures GuestWrote(s, map[]) == s
  {
    assert s.src + map[] == s.src && s.log + {} == s.log;
  }

  lemma FlushBoth(cfg: Config, s: State) returns (f0: State, f1: State)
    requires TwoPages(cfg) && s.bulk && s.seen == Some(0) && s.offset == 1 && !s.stopped && s.bitmap == {} && s.log == {}
    requires s.pending == {0, 1} && s.cache == map[] && s.src.Keys == {0, 1} == s.dst.Keys && Sized(cfg, s.src)
    ensures cfg.word > 0 && 0 in s.src && 1 in f0.src
    ensures Enabled(cfg, s, QuietFlush(s, 0)) && f0 == Step(cfg, s, QuietFlush(s, 0))
    ensures Enabled(cfg, f0, QuietFlush(f0, 1)) && f1 == Step(cfg, f0, QuietFlush(f0, 1))
    ensures JustSent(cfg, f1) && f1.src == s.src
  {
    f0 := Step(cfg, s, QuietFlush(s, 0));
    NoWrites(s);
    f1 := Step(cfg, f0, QuietFlush(f0, 1));
    NoWrites(f0);
    assert f1.pending == {};
    assert f1.dst == s.src;
  }

  lemma GuestThenSync(cfg: Config, s: State, g: State, a: Page)
    requires JustSent(cfg, s) && |a| == 2 && g == GuestWrote(s, map[1 := a])
    ensures cfg.word > 0
    ensures Enabled(cfg, s, Guest(map[1 := a])) && g == Step(cfg, s, Guest(map[1 := a]))
    ensures Enabled(cfg, g, SyncBitmap) && Synced(cfg, g) == Step(cfg, g, SyncBitmap)
  {
    hide Synced;
  }

  lemma FourEvents(cfg: Config, s: State, f0: State, f1: State, g: State, t: State, a: Page) returns (es: seq<Event>)
    requires cfg.word > 0
    requires 0 in s.src && Enabled(cfg, s, QuietFlush(s, 0)) && f0 == Step(cfg, s, QuietFlush(s, 0))
    requires 1 in f0.src && Enabled(cfg, f0, QuietFlush(f0, 1)) && f1 == Step(cfg, f0, QuietFlush(f0, 1))
    requires Enabled(cfg, f1, Guest(map[1 := a])) && g == Step(cfg, f1, Guest(map[1 := a]))
    requires Enabled(cfg, g, SyncBitmap) && t == Step(cfg, g, SyncBitmap)
    ensures Leads(cfg, s, es, t)
  {
    hide Step, Enabled, LosesPage;
    assert Leads(cfg, t, [], t);
    LeadsCons(cfg, g, SyncBitmap, [], t);
    LeadsCons(cfg, f1, Guest(map[1 := a]), [SyncBitmap] + [], t);
    var es1 := [Guest(map[1 := a])] + ([SyncBitmap] + []);
    LeadsCons(cfg, f0, QuietFlush(f0, 1), es1, t);
    LeadsCons(cfg, s, QuietFlush(s, 0), [QuietFlush(f0, 1)] + es1, t);
    es := [QuietFlush(s, 0)] + ([QuietFlush(f0, 1)] + es1);
  }
}
