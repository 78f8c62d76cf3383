/** Safety of pre-copy migration: in every run, each page is the same on both
    sides, or on its way, or still marked in the bitmap or the dirty log - with
    one exact exception at the end of the bulk stage. */
module PrecopySafety {
  import opened Common
  import opened MigrationBitmap
  import opened Precopy
  import Xbzrle

  // ---- the invariant

  /** Page p is safe: nothing has to happen that is not going to happen. */
  ghost predicate SafePage(s: State, p: int) {
    p in s.src && p in s.dst &&
    (p in s.pending || s.dst[p] == s.src[p] || p in s.bitmap || p in s.log)
  }

  /** A cached page that may still be encoded against is what the destination
      has. */
  ghost predicate CachedPage(s: State, p: int) {
    p in s.cache ==>
      (p !in s.pending && p in s.dst && s.dst[p] == s.cache[p]) || (s.stopped && p !in s.bitmap)
  }

  ghost predicate Shape(cfg: Config, s: State) {
    && cfg.Valid()
    && s.src.Keys == s.dst.Keys == RamPages(cfg.blocks)
    && Sized(cfg, s.src) && Sized(cfg, s.dst) && Sized(cfg, s.cache)
    && s.cache.Keys <= RamPages(cfg.blocks) && s.pending <= RamPages(cfg.blocks)
    && (forall p | p in s.log :: 0 <= p)
    && (s.bulk || !cfg.xbzrle ==> s.cache == map[])
    && (s.stopped ==> s.log * RamPages(cfg.blocks) == {})
  }

  ghost predicate Tallied(cfg: Config, s: State) {
    GapsMarked(cfg.blocks, s.bitmap) && s.count == |Tally(cfg.blocks, s.bitmap)|
  }

  ghost predicate Content(cfg: Config, s: State) {
    && (forall p | p in RamPages(cfg.blocks) :: CachedPage(s, p))
    && (forall p | p in RamPages(cfg.blocks) :: SafePage(s, p))
  }

  // ---- sending one page

  /** What a send does to everything but its page. */
  ghost predicate OthersKept(s: State, t: State, p: int) {
    && t.src == s.src && t.log == s.log && t.bitmap == s.bitmap && t.count == s.count
    && t.bulk == s.bulk && t.seen == s.seen && t.offset == s.offset && t.stopped == s.stopped
    && t.dst.Keys == s.dst.Keys + {p} && t.cache.Keys <= s.cache.Keys + {p}
    && (forall q | q in s.dst && q != p :: t.dst[q] == s.dst[q])
    && (forall q | q in t.cache && q != p :: q in s.cache && t.cache[q] == s.cache[q])
    && (forall q | q != p :: q in t.pending <==> q in s.pending)
  }

  /** The page itself, afterwards: on its way, equal to what was observed, or
      raced by the guest - and if the cache holds it and the guest still runs,
      the cache holds what the destination has. */
  ghost predicate PageSettled(s: State, t: State, o: Observation, p: int) {
    && p in t.dst
    && (p in t.pending || t.dst[p] == o.zeroTest || t.dst[p] == o.copy || t.dst[p] == o.recopy)
    && (p in t.cache ==> (p !in t.pending && t.dst[p] == t.cache[p]) || s.stopped)
  }

  lemma SaveXbzrleSettles(cfg: Config, s: State, o: Observation, p: int, i: nat, off: nat)
    requires 2 <= cfg.pageSize <= 0x3fff && Sized(cfg, s.cache) && Sized(cfg, s.dst) && p in s.dst
    requires |o.copy| == |o.recopy| == cfg.pageSize && (!o.inserted ==> p !in s.cache)
    requires p in s.cache ==> p !in s.pending && s.dst[p] == s.cache[p]
    ensures var r := SaveXbzrle(cfg, s, o, p, i, off);
      OthersKept(s, r.state, p) && PageSettled(s, r.state, o, p) &&
      Sized(cfg, r.state.dst) && Sized(cfg, r.state.cache)
    ensures p !in s.cache ==> SaveXbzrle(cfg, s, o, p, i, off).sentBytes
  {
    hide Xbzrle.Encode, Xbzrle.Decode;
    if p in s.cache {
      Xbzrle.UnchangedIffEqual(s.cache[p], o.copy, |o.copy|);
      if Xbzrle.Encode(s.cache[p], o.copy, |o.copy|).Encoded? {
        Xbzrle.RoundTrip(s.cache[p], o.copy, |o.copy|);
      }
    }
  }

  lemma SendPageSettles(cfg: Config, s: State, o: Observation, p: int, i: nat, off: nat)
    requires 2 <= cfg.pageSize <= 0x3fff && Sized(cfg, s.cache) && Sized(cfg, s.dst) && p in s.dst
    requires |o.copy| == |o.recopy| == cfg.pageSize && (!o.inserted ==> p !in s.cache)
    requires p in s.cache ==> p !in s.pending && s.dst[p] == s.cache[p]
    requires s.bulk || !cfg.xbzrle ==> s.cache == map[]
    ensures var r := SendPage(cfg, s, o, p, i, off);
      OthersKept(s, r.state, p) && PageSettled(s, r.state, o, p) &&
      Sized(cfg, r.state.dst) && Sized(cfg, r.state.cache) && (s.bulk || !cfg.xbzrle ==> r.state.cache == map[]) &&
      (s.bulk || s.cache == map[] ==> r.sentBytes)
  {
    if o.zeroTest == Zero(cfg) {
      assert seq(|s.dst[p]|, _ => 0) == Zero(cfg);
      hide SaveXbzrle;
    } else if !s.bulk && cfg.xbzrle {
      hide SaveXbzrle;
      SaveXbzrleSettles(cfg, s, o, p, i, off);
    }
  }

  // ---- one pass

  /** The pass ends the call by unmarking a page it does not send. */
  predicate Drops(cfg: Config, s: State, c: Cursor, o: Observation)
    requires c.block < |cfg.blocks|
  {
    var b := cfg.blocks[c.block];
    var off := FindAndReset(GuestWrote(s, o.writes), b, c.offset).next;
    c.round && s.seen == Some(c.block) && s.offset <= off < b.pages
  }

  /** In the bulk stage the page after the cursor is marked. */
  ghost predicate BulkNextMarked(cfg: Config, s: State, c: Cursor)
    requires c.block < |cfg.blocks|
  {
    var b := cfg.blocks[c.block];
    s.bulk && 0 < c.offset && c.offset + 1 < b.pages ==> b.base + c.offset + 1 in s.bitmap
  }

  /** The page a pass unmarks was marked, and lies in the block. */
  lemma FoundPage(cfg: Config, s: State, c: Cursor, o: Observation)
    requires c.block < |cfg.blocks| && BulkNextMarked(cfg, s, c)
    ensures var b := cfg.blocks[c.block];
      var f := FindAndReset(GuestWrote(s, o.writes), b, c.offset);
      var p := b.base + f.next;
      f.next >= 0 && (s.bulk ==> f.next <= Max(b.pages, c.offset + 1)) && (!s.bulk ==> f.next <= b.pages) &&
      f.state == GuestWrote(s, o.writes).(bitmap := f.state.bitmap, count := f.state.count) &&
      (f.next < b.pages ==> p in s.bitmap && f.state.bitmap == s.bitmap - {p} && f.state.count == s.count - 1) &&
      (f.next >= b.pages ==> f.state.bitmap == s.bitmap && f.state.count == s.count)
  {
  }

  lemma BlockPagesInRam(cfg: Config, i: nat, p: int)
    requires i < |cfg.blocks| && cfg.blocks[i].Has(p)
    ensures p in RamPages(cfg.blocks)
  {
    assert InRam(cfg.blocks, p);
  }

  lemma GuestShape(cfg: Config, s: State, writes: map<int, Page>)
    requires Shape(cfg, s)
    requires writes.Keys <= s.src.Keys && Sized(cfg, writes) && (s.stopped ==> writes == map[])
    ensures Shape(cfg, GuestWrote(s, writes))
  {
    var t := GuestWrote(s, writes);
    RamBelowEnd(cfg.blocks);
    RamNonNegative(cfg.blocks);
    hide RamPages, LastPage, Config.Valid;
    assert t.src.Keys == s.src.Keys;
    assert s.stopped ==> t.log == s.log;
  }

  lemma GuestContent(cfg: Config, s: State, writes: map<int, Page>)
    requires Content(cfg, s) && writes.Keys <= s.src.Keys
    ensures Content(cfg, GuestWrote(s, writes))
  {
    var t := GuestWrote(s, writes);
    hide RamPages;
    forall p | p in RamPages(cfg.blocks)
      ensures SafePage(t, p) && CachedPage(t, p)
    {
      assert SafePage(s, p) && CachedPage(s, p);
    }
  }

  /** Guest writes keep everything, by marking what they touch in the log. */
  lemma GuestKeeps(cfg: Config, s: State, writes: map<int, Page>)
    requires Shape(cfg, s) && Tallied(cfg, s) && Content(cfg, s)
    requires writes.Keys <= s.src.Keys && Sized(cfg, writes) && (s.stopped ==> writes == map[])
    ensures var t := GuestWrote(s, writes); Shape(cfg, t) && Tallied(cfg, t) && Content(cfg, t)
  {
    hide Shape, Content;
    GuestShape(cfg, s, writes);
    GuestContent(cfg, s, writes);
  }

  lemma RamNonNegative(blocks: seq<RamBlock>)
    ensures forall p | p in RamPages(blocks) :: 0 <= p
  {
  }

  /** Unmarking a page that is about to be settled. */
  lemma UnmarkTallied(cfg: Config, s: State, t: State, p: int)
    requires Tallied(cfg, s) && p in s.bitmap && p in RamPages(cfg.blocks)
    requires t.bitmap == s.bitmap - {p} && t.count == s.count - 1
    ensures Tallied(cfg, t)
  {
    TallyUnmarked(cfg.blocks, s.bitmap, p);
    hide RamPages, LastPage, Tally;
  }

  /** The page branch of a pass keeps the invariant. */
  lemma SendKeeps(cfg: Config, s: State, o: Observation, p: int, i: nat, off: nat)
    requires Shape(cfg, s) && Content(cfg, s) && p in RamPages(cfg.blocks) && p in s.bitmap
    requires |o.copy| == |o.recopy| == cfg.pageSize && (!o.inserted ==> p !in s.cache)
    requires p in s.log || o.zeroTest == o.copy == o.recopy == s.src[p]
    ensures var m := s.(bitmap := s.bitmap - {p}, count := s.count - 1);
      var r := SendPage(cfg, m, o, p, i, off);
      Shape(cfg, r.state) && Content(cfg, r.state) && OthersKept(m, r.state, p) &&
      (s.bulk || s.cache == map[] ==> r.sentBytes)
  {
    var m := s.(bitmap := s.bitmap - {p}, count := s.count - 1);
    var r := SendPage(cfg, m, o, p, i, off);
    assert CachedPage(s, p);
    SendPageSettles(cfg, m, o, p, i, off);
    hide SendPage;
    SettledShape(cfg, s, m, r.state, p);
    SettledContent(cfg, s, m, r.state, o, p);
  }

  lemma SettledShape(cfg: Config, s: State, m: State, t: State, p: int)
    requires Shape(cfg, s) && p in RamPages(cfg.blocks) && m == s.(bitmap := s.bitmap - {p}, count := s.count - 1)
    requires OthersKept(m, t, p) && Sized(cfg, t.dst) && Sized(cfg, t.cache) && (s.bulk || !cfg.xbzrle ==> t.cache == map[])
    ensures Shape(cfg, t)
  {
    assert t.dst.Keys == s.dst.Keys;
    hide RamPages, LastPage, Config.Valid;
  }

  lemma SettledContent(cfg: Config, s: State, m: State, t: State, o: Observation, p: int)
    requires Content(cfg, s) && m == s.(bitmap := s.bitmap - {p}, count := s.count - 1)
    requires p in RamPages(cfg.blocks) && p in s.src
    requires OthersKept(m, t, p) && PageSettled(m, t, o, p)
    requires p in s.log || o.zeroTest == o.copy == o.recopy == s.src[p]
    ensures Content(cfg, t)
  {
    hide RamPages;
    forall q | q in RamPages(cfg.blocks)
      ensures SafePage(t, q) && CachedPage(t, q)
    {
      assert SafePage(s, q) && CachedPage(s, q);
    }
  }

  /** A pass that finds a page. */
  lemma FoundKeeps(cfg: Config, g: State, f: State, o: Observation, p: int, i: nat, off: nat)
    requires Shape(cfg, g) && Tallied(cfg, g) && Content(cfg, g)
    requires p in RamPages(cfg.blocks) && p in g.bitmap && f == g.(bitmap := g.bitmap - {p}, count := g.count - 1)
    requires |o.copy| == |o.recopy| == cfg.pageSize && (!o.inserted ==> p !in g.cache)
    requires p in g.log || o.zeroTest == o.copy == o.recopy == g.src[p]
    ensures Shape(cfg, f) && Tallied(cfg, f)
    ensures var t := SendPage(cfg, f, o, p, i, off).state; Shape(cfg, t) && Tallied(cfg, t) && Content(cfg, t)
  {
    hide Shape, Content, Tallied, SendPage, RamPages;
    UnmarkTallied(cfg, g, f, p);
    UnmarkShape(cfg, g, f);
    SendKeeps(cfg, g, o, p, i, off);
    TalliedKept(cfg, f, SendPage(cfg, f, o, p, i, off).state, p);
  }

  lemma ObservedPage(cfg: Config, s: State, o: Observation, p: int)
    requires Plausible(cfg, s, o, p) && p in s.src
    ensures var g := GuestWrote(s, o.writes);
      p in g.src && (p in g.log || o.zeroTest == o.copy == o.recopy == g.src[p]) &&
      |o.copy| == |o.recopy| == cfg.pageSize && (!o.inserted ==> p !in g.cache)
  {
  }

  /** The state a pass leaves, by what it found. */
  lemma PassCases(cfg: Config, s: State, c: Cursor, o: Observation)
    requires c.block < |cfg.blocks|
    ensures var b := cfg.blocks[c.block];
      var f := FindAndReset(GuestWrote(s, o.writes), b, c.offset);
      var t := OnePass(cfg, s, c, o).state;
      if f.next >= b.pages then t == f.state || t == f.state.(bulk := false)
      else if Drops(cfg, s, c, o) then t == f.state
      else t == SendPage(cfg, f.state, o, b.base + f.next, c.block, Max(f.next, 0)).state || f.next < 0
  {
    hide FindAndReset, SendPage;
  }

  /** Every pass keeps the invariant, except a pass that drops a page. */
  lemma PassKeeps(cfg: Config, s: State, c: Cursor, o: Observation)
    requires Shape(cfg, s) && Tallied(cfg, s) && Content(cfg, s)
    requires c.block < |cfg.blocks| && BulkNextMarked(cfg, s, c)
    requires Plausible(cfg, s, o, PageAt(cfg, s, c, o))
    ensures var t := OnePass(cfg, s, c, o).state;
      Shape(cfg, t) && Tallied(cfg, t) && (!Drops(cfg, s, c, o) ==> Content(cfg, t))
  {
    hide Shape, Content, Tallied, FindAndReset, SendPage, RamPages, OnePass, Drops, BulkNextMarked;
    var b := cfg.blocks[c.block];
    var g := GuestWrote(s, o.writes);
    var f := FindAndReset(g, b, c.offset);
    var p := b.base + f.next;
    FoundPage(cfg, s, c, o);
    PassCases(cfg, s, c, o);
    assert o.writes.Keys <= s.src.Keys && Sized(cfg, o.writes) && (s.stopped ==> o.writes == map[]);
    GuestKeeps(cfg, s, o.writes);
    if f.next < b.pages {
      RamKeys(cfg, s);
      BlockPagesInRam(cfg, c.block, p);
      assert p == PageAt(cfg, s, c, o);
      ObservedPage(cfg, s, o, p);
      hide Plausible;
      FoundKeeps(cfg, g, f.state, o, p, c.block, f.next);
    } else {
      hide Plausible;
      NoBulkKeeps(cfg, g);
    }
  }

  lemma RamKeys(cfg: Config, s: State)
    requires Shape(cfg, s)
    ensures forall p | p in RamPages(cfg.blocks) :: p in s.src
  {
  }

  lemma UnmarkShape(cfg: Config, s: State, t: State)
    requires Shape(cfg, s) && t == s.(bitmap := t.bitmap, count := t.count)
    ensures Shape(cfg, t)
  {
  }

  lemma TalliedKept(cfg: Config, s: State, t: State, p: int)
    requires Tallied(cfg, s) && OthersKept(s, t, p)
    ensures Tallied(cfg, t)
  {
  }

  lemma NoBulkKeeps(cfg: Config, s: State)
    requires Shape(cfg, s) && Tallied(cfg, s) && Content(cfg, s)
    ensures var t := s.(bulk := false); Shape(cfg, t) && Tallied(cfg, t) && Content(cfg, t)
  {
    var t := s.(bulk := false);
    hide RamPages;
    forall q | q in RamPages(cfg.blocks)
      ensures SafePage(t, q) && CachedPage(t, q)
    {
      assert SafePage(s, q) && CachedPage(s, q);
    }
  }
}
