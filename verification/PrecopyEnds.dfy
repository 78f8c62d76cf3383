/** How calls of ram_save_block end: the loop terminates, so does the loop of
    ram_save_complete; a page is unmarked only when it is sent or found
    unchanged; and what exactly is lost in the losing state. */
module PrecopyEnds {
  import opened Common
  import opened MigrationBitmap
  import opened Precopy
  import opened PrecopySafety
  import opened PrecopySweep
  import opened PrecopyRuns
  import Xbzrle

  // ---- termination

  /** A pass that goes on brings the end of the call closer. */
  lemma PassBringsEndCloser(cfg: Config, s: State, c: Cursor, o: Observation, bulkStart: bool)
    requires cfg.Valid() && InCall(cfg, s, c, bulkStart) && !OnePass(cfg, s, c, o).done
    ensures var p := OnePass(cfg, s, c, o); 0 <= Left(cfg, p.state, p.cursor) < Left(cfg, s, c)
  {
    hide OnePass, Kind, FindAndReset, RamPages, Swept, BulkAhead;
    GoesOn(cfg, s, c, o, bulkStart);
    PassFrame(cfg, s, c, o);
    PassOutcome(cfg, s, c, o);
    PassKind(cfg, s, c, o);
    FoundIn(cfg, s, c, o, bulkStart);
    var p := OnePass(cfg, s, c, o);
    var f := FindAndReset(GuestWrote(s, o.writes), cfg.blocks[c.block], c.offset);
    if Kind(cfg, s, c, o).Skip? {
      var x := At(cfg, c.block, f.next);
      BlockPagesInRam(cfg, c.block, x);
      assert p.state.bitmap * RamPages(cfg.blocks) == s.bitmap * RamPages(cfg.blocks) - {x};
    }
  }

  /** The bitmap after a pass, whatever the stage. */
  lemma FoundIn(cfg: Config, s: State, c: Cursor, o: Observation, bulkStart: bool)
    requires cfg.Valid() && InCall(cfg, s, c, bulkStart)
    ensures var b := cfg.blocks[c.block];
      var f := FindAndReset(GuestWrote(s, o.writes), b, c.offset);
      f.next >= 0 &&
      (if f.next < b.pages then At(cfg, c.block, f.next) in s.bitmap && f.state.bitmap == s.bitmap - {At(cfg, c.block, f.next)}
       else f.state.bitmap == s.bitmap)
  {
    if s.bulk {
      BulkFinds(cfg, s, c, o);
      FoundPage(cfg, s, c, o);
    } else {
      LinearFinds(cfg, s, c, o);
    }
  }

  /** ram_save_block terminates: no call goes on for more passes than there
      are marked pages and blocks to visit, whatever it observes. */
  lemma {:induction false} CallTerminates(cfg: Config, s: State, c: Cursor, os: seq<Observation>, bulkStart: bool)
    requires cfg.Valid() && InCall(cfg, s, c, bulkStart) && GoingOn(cfg, s, c, os)
    ensures |os| <= Left(cfg, s, c)
    decreases |os|
  {
    hide OnePass, InCall, Left;
    if os == [] {
      LeftNonNegative(cfg, s, c, bulkStart);
    } else {
      PassBringsEndCloser(cfg, s, c, os[0], bulkStart);
      GoesOn(cfg, s, c, os[0], bulkStart);
      var p := OnePass(cfg, s, c, os[0]);
      CallTerminates(cfg, p.state, p.cursor, os[1..], bulkStart);
    }
  }

  /** So among enough observations, however they come, there is the end of the
      call. */
  lemma {:induction false} CallEnds(cfg: Config, s: State, c: Cursor, os: seq<Observation>, bulkStart: bool) returns (n: nat)
    requires cfg.Valid() && InCall(cfg, s, c, bulkStart) && Watched(cfg, s, c, os) && |os| > Left(cfg, s, c)
    ensures 0 < n <= |os| && n <= Left(cfg, s, c) + 1 && Calls(cfg, s, c, os[..n])
    decreases |os|
  {
    hide OnePass, Plausible, InCall, Left;
    LeftNonNegative(cfg, s, c, bulkStart);
    var p := OnePass(cfg, s, c, os[0]);
    if p.done {
      n := 1;
      assert os[..1][0] == os[0];
    } else {
      PassBringsEndCloser(cfg, s, c, os[0], bulkStart);
      GoesOn(cfg, s, c, os[0], bulkStart);
      n := CallEnds(cfg, p.state, p.cursor, os[1..], bulkStart);
      n := n + 1;
      assert os[..n][1..] == os[1..][..n - 1] && os[..n][0] == os[0];
    }
  }

  lemma LeftNonNegative(cfg: Config, s: State, c: Cursor, bulkStart: bool)
    requires InCall(cfg, s, c, bulkStart)
    ensures Left(cfg, s, c) >= 0
  {
  }

  /** Every call leaves fewer pages marked if it sends, and never more: the
      loop of ram_save_complete, which runs with the guest stopped, ends after
      at most as many calls as pages were marked, and one more. */
  lemma {:induction false} CallUnmarks(cfg: Config, s: State, c: Cursor, os: seq<Observation>, bulkStart: bool)
    requires cfg.Valid() && InCall(cfg, s, c, bulkStart) && Calls(cfg, s, c, os)
    ensures var p := LastPass(cfg, s, c, os);
      p.state.bitmap <= s.bitmap &&
      |p.state.bitmap * RamPages(cfg.blocks)| <= |s.bitmap * RamPages(cfg.blocks)| - (if p.sentBytes then 1 else 0)
    decreases |os|
  {
    hide OnePass, Plausible, InCall, RamPages;
    var p := OnePass(cfg, s, c, os[0]);
    PassUnmarksOne(cfg, s, c, os[0], bulkStart);
    if !p.done {
      GoesOn(cfg, s, c, os[0], bulkStart);
      CallUnmarks(cfg, p.state, p.cursor, os[1..], bulkStart);
    }
  }

  /** Calls of ram_save_block one after the other, each of which sends. */
  ghost predicate Sending(cfg: Config, s: State, calls: seq<seq<Observation>>)
    decreases |calls|
  {
    calls == [] ||
    (!LosesPage(cfg, s) && Calls(cfg, s, Start(s), calls[0]) &&
     var p := LastPass(cfg, s, Start(s), calls[0]);
     p.sentBytes && Sending(cfg, Ended(p), calls[1..]))
  }

  /** The loop of ram_save_complete terminates: with the guest stopped, and
      even without, no more calls in a row can send than pages are marked. */
  lemma {:induction false} CompleteTerminates(cfg: Config, s: State, calls: seq<seq<Observation>>)
    requires Inv(cfg, s) && Sending(cfg, s, calls)
    ensures |calls| <= |s.bitmap * RamPages(cfg.blocks)|
    decreases |calls|
  {
    hide Calls, LastPass, LosesPage, Sound, Content, RamPages, InCall;
    if calls != [] {
      var p := LastPass(cfg, s, Start(s), calls[0]);
      SoundStarts(cfg, s);
      CallUnmarks(cfg, s, Start(s), calls[0], s.bulk);
      SaveKeeps(cfg, s, calls[0]);
      CompleteTerminates(cfg, Ended(p), calls[1..]);
    }
  }

  lemma SoundStarts(cfg: Config, s: State)
    requires Sound(cfg, s)
    ensures cfg.Valid() && InCall(cfg, s, Start(s), s.bulk)
  {
    hide InCall, CursorValid, Tallied;
    CallStarts(cfg, s);
  }

  lemma InCallBlock(cfg: Config, s: State, c: Cursor, bulkStart: bool)
    requires InCall(cfg, s, c, bulkStart)
    ensures c.block < |cfg.blocks|
  {
  }

  lemma PassUnmarksOne(cfg: Config, s: State, c: Cursor, o: Observation, bulkStart: bool)
    requires cfg.Valid() && InCall(cfg, s, c, bulkStart)
    ensures var p := OnePass(cfg, s, c, o);
      p.state.bitmap <= s.bitmap &&
      |p.state.bitmap * RamPages(cfg.blocks)| <= |s.bitmap * RamPages(cfg.blocks)| - (if p.sentBytes then 1 else 0)
  {
    hide OnePass, Kind, FindAndReset, RamPages, InCall;
    InCallBlock(cfg, s, c, bulkStart);
    PassFrame(cfg, s, c, o);
    PassOutcome(cfg, s, c, o);
    PassKind(cfg, s, c, o);
    FoundIn(cfg, s, c, o, bulkStart);
    var t := OnePass(cfg, s, c, o).state;
    var f := FindAndReset(GuestWrote(s, o.writes), cfg.blocks[c.block], c.offset);
    if f.next < cfg.blocks[c.block].pages {
      var x := At(cfg, c.block, f.next);
      BlockPagesInRam(cfg, c.block, x);
      assert t.bitmap * RamPages(cfg.blocks) == s.bitmap * RamPages(cfg.blocks) - {x};
    }
  }

  // ---- what unmarking means

  /** t's stream is s's with one more record, for page off of block i. */
  predicate OneMoreRecord(s: State, t: State, i: nat, off: nat) {
    |t.sent| == |s.sent| + 1 && t.sent[..|s.sent|] == s.sent &&
    t.sent[|s.sent|].block == i && t.sent[|s.sent|].offset == off
  }

  /** A pass unmarks a page only by sending it, by finding it equal to the
      cached copy, or by dropping it. */
  lemma UnmarkedIsSettled(cfg: Config, s: State, c: Cursor, o: Observation, q: int)
    requires c.block < |cfg.blocks| && 2 <= cfg.pageSize <= 0x3fff && Sized(cfg, s.cache) && |o.copy| == cfg.pageSize
    requires BulkNextMarked(cfg, s, c)
    requires q in s.bitmap && q !in OnePass(cfg, s, c, o).state.bitmap
    ensures q == PageAt(cfg, s, c, o) && cfg.blocks[c.block].base <= q
    ensures Drops(cfg, s, c, o) ||
      OneMoreRecord(s, OnePass(cfg, s, c, o).state, c.block, q - cfg.blocks[c.block].base) ||
      (q in s.cache && s.cache[q] == o.copy)
  {
    hide FindAndReset, SendPage, OnePass, Kind, Drops, BulkNextMarked, OneMoreRecord;
    var b := cfg.blocks[c.block];
    var f := FindAndReset(GuestWrote(s, o.writes), b, c.offset);
    PassFrame(cfg, s, c, o);
    FoundPage(cfg, s, c, o);
    PassCases(cfg, s, c, o);
    assert f.next < b.pages && q == b.base + f.next;
    assert f.state.cache == s.cache && f.state.sent == s.sent;
    SendRecords(cfg, f.state, o, q, c.block, f.next);
    if OneMoreRecord(f.state, OnePass(cfg, s, c, o).state, c.block, f.next) {
      SameStream(f.state, s, OnePass(cfg, s, c, o).state, c.block, f.next);
    }
  }

  lemma SameStream(f: State, s: State, t: State, i: nat, off: nat)
    requires f.sent == s.sent && OneMoreRecord(f, t, i, off)
    ensures OneMoreRecord(s, t, i, off)
  {
  }

  lemma XbzrleRecords(cfg: Config, s: State, o: Observation, p: int, i: nat, off: nat)
    requires 2 <= cfg.pageSize <= 0x3fff && Sized(cfg, s.cache) && |o.copy| == cfg.pageSize
    ensures var r := SaveXbzrle(cfg, s, o, p, i, off);
      if r.sentBytes then OneMoreRecord(s, r.state, i, off) else p in s.cache && s.cache[p] == o.copy
  {
    hide Xbzrle.Encode, Xbzrle.Decode;
    if p in s.cache {
      Xbzrle.UnchangedIffEqual(s.cache[p], o.copy, |o.copy|);
    }
  }

  lemma SendRecords(cfg: Config, s: State, o: Observation, p: int, i: nat, off: nat)
    requires 2 <= cfg.pageSize <= 0x3fff && Sized(cfg, s.cache) && |o.copy| == cfg.pageSize
    ensures var r := SendPage(cfg, s, o, p, i, off);
      if r.sentBytes then OneMoreRecord(s, r.state, i, off) else p in s.cache && s.cache[p] == o.copy
  {
    hide SaveXbzrle;
    XbzrleRecords(cfg, s, o, p, i, off);
  }

  /** A record with this payload went out, and the cache holds page for p. */
  ghost predicate Went(s: State, r: Precopy.Sending, p: int, i: nat, off: nat, payload: Payload, page: Option<Page>) {
    && r.sentBytes && r.state.sent == s.sent + [Send(i, off, payload)]
    && (page.Some? ==> p in r.state.cache && r.state.cache[p] == page.value)
    && (page.None? ==> r.state.cache == s.cache)
    && forall q | q in r.state.cache && q != p :: q in s.cache && r.state.cache[q] == s.cache[q]
  }

  /** Which record a page becomes, and what the cache holds afterwards: a zero
      page is a zero record; without XBZRLE anything else is a whole page
      handed over without a copy; with it, a page the cache does not hold goes
      out whole, an equal one not at all, and a changed one as a delta if that
      fits in a page and whole if not.  Once the guest is stopped the cache
      learns nothing from a page with bytes in it, and whole pages need no
      copy. */
  lemma SentAs(cfg: Config, s: State, o: Observation, p: int, i: nat, off: nat)
    requires 2 <= cfg.pageSize <= 0x3fff && Sized(cfg, s.cache)
    requires |o.zeroTest| == |o.copy| == |o.recopy| == cfg.pageSize && (!o.inserted ==> p !in s.cache)
    ensures var r := SendPage(cfg, s, o, p, i, off);
      var zero := forall k | 0 <= k < |o.zeroTest| :: o.zeroTest[k] == 0;
      var late, active := if s.stopped then LatePage else WholePage(o.copy), cfg.xbzrle && !s.bulk;
      && (zero ==> Went(s, r, p, i, off, ZeroPage, if active && o.inserted then Some(o.zeroTest) else None))
      && (!zero && !active ==> Went(s, r, p, i, off, LatePage, None))
      && (!zero && active && p !in s.cache ==>
            Went(s, r, p, i, off, late, if !s.stopped && o.inserted then Some(o.copy) else None))
      && (!zero && active && p in s.cache && s.cache[p] == o.copy ==> !r.sentBytes && r.state == s)
      && (!zero && active && p in s.cache && s.cache[p] != o.copy ==> ChangedSentAs(cfg, s, o, p, i, off, r))
  {
    hide SaveXbzrle, ChangedSentAs;
    XbzrleSentAs(cfg, s, o, p, i, off);
    if forall k | 0 <= k < |o.zeroTest| :: o.zeroTest[k] == 0 {
      assert o.zeroTest == Zero(cfg);
    }
  }

  ghost predicate ChangedSentAs(cfg: Config, s: State, o: Observation, p: int, i: nat, off: nat, r: Precopy.Sending)
    requires p in s.cache && |s.cache[p]| == |o.copy| <= 0x3fff
  {
    var delta := Xbzrle.Whole(s.cache[p], o.copy, 0);
    if |delta| + Xbzrle.Spare(s.cache[p], o.copy) <= cfg.pageSize then
      Xbzrle.Decode(delta, s.cache[p]) == Some(o.copy) &&
      Went(s, r, p, i, off, DeltaPage(delta), if s.stopped then None else Some(o.copy))
    else if s.stopped then Went(s, r, p, i, off, LatePage, None)
    else Went(s, r, p, i, off, WholePage(o.recopy), Some(o.recopy))
  }

  lemma XbzrleSentAs(cfg: Config, s: State, o: Observation, p: int, i: nat, off: nat)
    requires 2 <= cfg.pageSize <= 0x3fff && Sized(cfg, s.cache)
    requires |o.copy| == |o.recopy| == cfg.pageSize
    ensures var r := SaveXbzrle(cfg, s, o, p, i, off);
      && (p !in s.cache ==>
            Went(s, r, p, i, off, if s.stopped then LatePage else WholePage(o.copy),
                 if !s.stopped && o.inserted then Some(o.copy) else None))
      && (p in s.cache && s.cache[p] == o.copy ==> !r.sentBytes && r.state == s)
      && (p in s.cache && s.cache[p] != o.copy ==> ChangedSentAs(cfg, s, o, p, i, off, r))
  {
    hide Xbzrle.Encode, Xbzrle.Decode, Xbzrle.Whole, Xbzrle.Spare;
    if p in s.cache {
      var was := s.cache[p];
      Xbzrle.UnchangedIffEqual(was, o.copy, |o.copy|);
      Xbzrle.OverflowIff(was, o.copy, |o.copy|);
      if Xbzrle.Encode(was, o.copy, |o.copy|).Encoded? {
        Xbzrle.RoundTrip(was, o.copy, |o.copy|);
      }
    }
  }

  // ---- the lost page

  /** From s to t only the guest has written memory. */
  ghost predicate GuestOnly(s: State, t: State) {
    s.log <= t.log && s.src.Keys <= t.src.Keys &&
    forall q | q in s.src && q !in t.log :: t.src[q] == s.src[q]
  }

  /** A call that drops a page has sent nothing. */
  lemma {:induction false} DroppingSendsNothing(cfg: Config, s: State, c: Cursor, os: seq<Observation>)
    requires cfg.Valid() && InCall(cfg, s, c, true) && Calls(cfg, s, c, os) && CallDrops(cfg, s, c, os)
    ensures var t := LastPass(cfg, s, c, os).state;
      t.dst == s.dst && t.pending == s.pending && t.sent == s.sent && t.cache == s.cache &&
      t.bitmap * RamPages(cfg.blocks) == {} && GuestOnly(s, t)
    decreases |os|
  {
    hide OnePass, Plausible, RamPages, Swept, BulkAhead, Kind;
    var p := OnePass(cfg, s, c, os[0]);
    PassFrame(cfg, s, c, os[0]);
    PassOutcome(cfg, s, c, os[0]);
    if p.done {
      if p.sentBytes {
        SentNotDropped(cfg, s, c, os[0]);
        assert false;
      }
      EndsWell(cfg, s, c, os[0], true);
      LinearExit(cfg, s, c, os[0], true);
    } else {
      GoesOn(cfg, s, c, os[0], true);
      hide InCall;
      DroppingSendsNothing(cfg, p.state, p.cursor, os[1..]);
    }
  }

  /** In the losing state the next call unmarks the page, sends nothing and
      returns 0; so the invariant survives if and only if that page happens
      to need no sending. */
  lemma LostPage(cfg: Config, s: State, os: seq<Observation>)
    requires Inv(cfg, s) && LosesPage(cfg, s) && Calls(cfg, s, Start(s), os)
    ensures var x := At(cfg, |cfg.blocks| - 1, s.offset);
      var t := Ended(LastPass(cfg, s, Start(s), os));
      t.dst == s.dst && t.pending == s.pending && t.sent == s.sent && x !in t.bitmap &&
      (Content(cfg, t) <==> SafePage(t, x))
  {
    hide Calls, LastPass, Content, RamPages, Tallied, BulkAhead;
    ValidConfig(cfg, s);
    CallStarts(cfg, s);
    BulkCallDropsIff(cfg, s, os);
    DroppingSendsNothing(cfg, s, Start(s), os);
    LostContent(cfg, s, Ended(LastPass(cfg, s, Start(s), os)));
  }

  lemma LostContent(cfg: Config, s: State, t: State)
    requires Content(cfg, s) && LosesPage(cfg, s) && s.cache == map[] == t.cache
    requires t.dst == s.dst && t.pending == s.pending && GuestOnly(s, t) && t.bitmap * RamPages(cfg.blocks) == {}
    ensures var x := At(cfg, |cfg.blocks| - 1, s.offset);
      x in RamPages(cfg.blocks) && x !in t.bitmap && (Content(cfg, t) <==> SafePage(t, x))
  {
    hide RamPages;
    var x := At(cfg, |cfg.blocks| - 1, s.offset);
    assert x in s.bitmap * RamPages(cfg.blocks);
    assert x !in t.bitmap * RamPages(cfg.blocks);
    forall q | q in RamPages(cfg.blocks)
      ensures CachedPage(t, q) && (q != x ==> SafePage(t, q))
    {
      assert SafePage(s, q);
      assert q != x ==> q !in s.bitmap * RamPages(cfg.blocks);
    }
  }
}
