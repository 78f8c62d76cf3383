/** When the dirty-page counter of a migration is exact: over every run, if
    and only if the dirty log held no stray bit when the migration began. */
module PrecopyCounter {
  import opened Common
  import opened MigrationBitmap
  import opened Precopy
  import opened PrecopySafety
  import opened PrecopySweep
  import opened PrecopyRuns
  import opened PrecopyEnds
  import opened PrecopyTally

  function LogStray(cfg: Config, s: State): set<int>
    requires cfg.word > 0
  {
    Stray(cfg.blocks, Marks(s.bitmap, s.log, s.count), cfg.word)
  }

  /** From s to t nothing beyond the end of RAM was marked, unmarked or
      logged. */
  ghost predicate BeyondKept(cfg: Config, s: State, t: State) {
    Beyond(cfg.blocks, t.bitmap) == Beyond(cfg.blocks, s.bitmap) && Beyond(cfg.blocks, t.log) == Beyond(cfg.blocks, s.log)
  }

  lemma KeptByRam(cfg: Config, s: State, t: State, gone: set<int>, wrote: set<int>)
    requires gone <= RamPages(cfg.blocks) && wrote <= RamPages(cfg.blocks)
    requires t.bitmap == s.bitmap - gone && t.log == s.log + wrote
    ensures BeyondKept(cfg, s, t)
  {
    RamBelowEnd(cfg.blocks);
    hide RamPages, LastPage;
  }

  lemma PassKeepsBeyond(cfg: Config, s: State, c: Cursor, o: Observation, bulkStart: bool)
    requires cfg.Valid() && InCall(cfg, s, c, bulkStart) && o.writes.Keys <= RamPages(cfg.blocks)
    ensures BeyondKept(cfg, s, OnePass(cfg, s, c, o).state)
  {
    hide OnePass, Kind, FindAndReset, RamPages, InCall, Beyond;
    InCallBlock(cfg, s, c, bulkStart);
    PassFrame(cfg, s, c, o);
    FoundIn(cfg, s, c, o, bulkStart);
    var t := OnePass(cfg, s, c, o).state;
    var f := FindAndReset(GuestWrote(s, o.writes), cfg.blocks[c.block], c.offset);
    if f.next < cfg.blocks[c.block].pages {
      var x := At(cfg, c.block, f.next);
      BlockPagesInRam(cfg, c.block, x);
      KeptByRam(cfg, s, t, {x}, o.writes.Keys);
    } else {
      KeptByRam(cfg, s, t, {}, o.writes.Keys);
    }
  }

  lemma {:induction false} CallKeepsBeyond(cfg: Config, s: State, c: Cursor, os: seq<Observation>, bulkStart: bool)
    requires cfg.Valid() && InCall(cfg, s, c, bulkStart) && Calls(cfg, s, c, os) && s.src.Keys == RamPages(cfg.blocks)
    ensures BeyondKept(cfg, s, LastPass(cfg, s, c, os).state)
    decreases |os|
  {
    hide OnePass, InCall, RamPages, Beyond, Kind;
    assert os[0].writes.Keys <= s.src.Keys;
    PassKeepsBeyond(cfg, s, c, os[0], bulkStart);
    var p := OnePass(cfg, s, c, os[0]);
    if !p.done {
      GoesOn(cfg, s, c, os[0], bulkStart);
      PassFrame(cfg, s, c, os[0]);
      assert p.state.src.Keys == s.src.Keys;
      CallKeepsBeyond(cfg, p.state, p.cursor, os[1..], bulkStart);
    }
  }

  predicate IsSync(e: Event) { e.SyncBitmap? || e.Stop? }

  lemma StepBeyond(cfg: Config, s: State, e: Event)
    requires Sound(cfg, s) && cfg.word > 0 && Enabled(cfg, s, e) && !IsSync(e)
    ensures BeyondKept(cfg, s, Step(cfg, s, e))
  {
    hide Calls, LastPass, Tallied, RamPages, Beyond, CursorValid, InCall;
    assert s.src.Keys == RamPages(cfg.blocks);
    match e
    case Guest(writes) => KeptByRam(cfg, s, Step(cfg, s, e), {}, writes.Keys);
    case Save(os) =>
      CallStarts(cfg, s);
      CallKeepsBeyond(cfg, s, Start(s), os, s.bulk);
    case Flush(_, _, writes) => KeptByRam(cfg, s, Step(cfg, s, e), {}, writes.Keys);
    case Evict(_) =>
  }

  lemma SyncBeyond(cfg: Config, s: State)
    requires Sound(cfg, s)
    ensures cfg.word > 0
    ensures var t := Synced(cfg, s);
      Beyond(cfg.blocks, t.bitmap) == Beyond(cfg.blocks, s.bitmap) + LogStray(cfg, s) && LogStray(cfg, t) == {}
  {
    hide RamPages, Beyond, CursorValid, Sync, Stray, LastPage;
    SyncTallies(cfg.blocks, Marks(s.bitmap, s.log, s.count), cfg.word);
  }

  /** The stray bits are the same at any time: in the log until the first sync,
      in the bitmap ever after. */
  ghost predicate Accounts(cfg: Config, s: State, synced: bool, stray: set<int>)
    requires cfg.word > 0
  {
    if synced then Beyond(cfg.blocks, s.bitmap) == stray && LogStray(cfg, s) == {}
    else Beyond(cfg.blocks, s.bitmap) == {} && LogStray(cfg, s) == stray
  }

  lemma KeptAccounts(cfg: Config, s: State, t: State, synced: bool, stray: set<int>)
    requires cfg.word > 0 && Accounts(cfg, s, synced, stray) && BeyondKept(cfg, s, t)
    ensures Accounts(cfg, t, synced, stray)
  {
    hide CoveredAll, LastPage;
    forall p
      ensures p in LogStray(cfg, s) <==> p in LogStray(cfg, t)
    {
      assert p in Beyond(cfg.blocks, t.log) <==> p in Beyond(cfg.blocks, s.log);
    }
  }

  lemma StepAccounts(cfg: Config, s: State, e: Event, synced: bool, stray: set<int>)
    requires Sound(cfg, s) && cfg.word > 0 && Enabled(cfg, s, e) && Accounts(cfg, s, synced, stray)
    ensures Accounts(cfg, Step(cfg, s, e), synced || IsSync(e), stray)
  {
    hide Sound, Calls, LastPass, Beyond, Stray, Synced, BeyondKept;
    if IsSync(e) {
      SyncBeyond(cfg, s);
    } else {
      hide Step, Enabled, Accounts;
      StepBeyond(cfg, s, e);
      KeptAccounts(cfg, s, Step(cfg, s, e), synced, stray);
    }
  }

  predicate AnySync(es: seq<Event>) { exists k | 0 <= k < |es| :: IsSync(es[k]) }

  lemma AnySyncSplit(es: seq<Event>)
    requires es != []
    ensures AnySync(es) <==> IsSync(es[0]) || AnySync(es[1..])
  {
    if AnySync(es[1..]) {
      var k :| 0 <= k < |es[1..]| && IsSync(es[1..][k]);
      assert IsSync(es[k + 1]);
    }
    if AnySync(es) {
      var k :| 0 <= k < |es| && IsSync(es[k]);
      assert k > 0 ==> IsSync(es[1..][k - 1]);
    }
  }

  lemma {:induction false} RunAccounts(cfg: Config, s: State, es: seq<Event>, t: State, synced: bool, stray: set<int>)
    requires Sound(cfg, s) && cfg.word > 0 && Happens(cfg, s, es, t) && Accounts(cfg, s, synced, stray)
    ensures Accounts(cfg, t, synced || AnySync(es), stray)
    decreases |es|
  {
    hide Sound, Enabled, Step, Accounts, IsSync;
    if es != [] {
      AnySyncSplit(es);
      StepAccounts(cfg, s, es[0], synced, stray);
      StepSound(cfg, s, es[0]);
      RunAccounts(cfg, Step(cfg, s, es[0]), es[1..], t, synced || IsSync(es[0]), stray);
    }
  }

  /** The counter is the number of marked pages in RAM until the first sync,
      and from then on exactly when the log held no stray bit at the start. */
  lemma CounterExactIff(cfg: Config, src: map<int, Page>, dst: map<int, Page>, log: set<int>, es: seq<Event>, t: State)
    requires cfg.Valid() && src.Keys == dst.Keys == RamPages(cfg.blocks) && Sized(cfg, src) && Sized(cfg, dst)
    requires forall q | q in log :: 0 <= q
    requires Happens(cfg, Initial(cfg, src, dst, log), es, t)
    ensures t.count == |t.bitmap * RamPages(cfg.blocks)| <==>
      !AnySync(es) || LogStray(cfg, Initial(cfg, src, dst, log)) == {}
  {
    hide RamPages, LastPage, Happens, Tally, Stray, Sound, AnySync;
    var s := Initial(cfg, src, dst, log);
    InitialInv(cfg, src, dst, log);
    assert Accounts(cfg, s, false, LogStray(cfg, s));
    RunAccounts(cfg, s, es, t, false, LogStray(cfg, s));
    CounterTallies(cfg, src, dst, log, es, t);
  }
}
