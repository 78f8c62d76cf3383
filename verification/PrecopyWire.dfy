/** What a whole migration puts on the wire.  A page handed over without a
    copy is on the wire only once it is flushed, with the content it has then;
    so the stream of a run is made by appending the record of each call of
    ram_save_block and filling late records in when they go out. */
module PrecopyWire {
  import opened Common
  import opened MigrationBitmap
  import opened Precopy
  import opened PrecopySafety
  import opened PrecopySweep
  import opened PrecopyRuns
  import opened PrecopyEnds
  import Xbzrle

  // ---- records and what they do to memory

  predicate Placed(cfg: Config, r: Send) { r.block < |cfg.blocks| && r.offset < cfg.blocks[r.block].pages }

  /** The page a record is for. */
  function Place(cfg: Config, r: Send): int
    requires Placed(cfg, r)
  {
    cfg.blocks[r.block].base + r.offset
  }

  predicate AllPlaced(cfg: Config, w: seq<Send>) {
    forall k | 0 <= k < |w| :: Placed(cfg, w[k])
  }

  /** What a record leaves of the page it finds; nothing if it cannot be
      decoded, or has no content yet. */
  function Remade(cfg: Config, payload: Payload, page: Page): Option<Page> {
    match payload
    case ZeroPage => Some(Zero(cfg))
    case WholePage(whole) => Some(whole)
    case LatePage => None
    case DeltaPage(delta) => Xbzrle.Decode(delta, page)
  }

  function Stored(cfg: Config, m: map<int, Page>, r: Send): Option<map<int, Page>> {
    if !Placed(cfg, r) || Place(cfg, r) !in m then None
    else
      var p := Place(cfg, r);
      var page := Remade(cfg, r.payload, m[p]);
      if page.None? then None else Some(m[p := page.value])
  }

  /** Memory m once the records of w have been stored in it. */
  function Replay(cfg: Config, m: map<int, Page>, w: seq<Send>): Option<map<int, Page>> {
    if w == [] then Some(m)
    else
      var next := Stored(cfg, m, w[0]);
      if next.None? then None else Replay(cfg, next.value, w[1..])
  }

  lemma {:induction false} ReplayAppend(cfg: Config, m: map<int, Page>, w: seq<Send>, r: Send)
    ensures Replay(cfg, m, w + [r]) ==
      var before := Replay(cfg, m, w);
      if before.None? then None else Stored(cfg, before.value, r)
    decreases |w|
  {
    hide Stored;
    if w == [] {
      assert ([] + [r])[1..] == [];
    } else {
      assert (w + [r])[1..] == w[1..] + [r];
      var next := Stored(cfg, m, w[0]);
      if next.Some? {
        ReplayAppend(cfg, next.value, w[1..], r);
      }
    }
  }

  lemma {:induction false} ReplayKeys(cfg: Config, m: map<int, Page>, w: seq<Send>)
    ensures var r := Replay(cfg, m, w); r.Some? ==> r.value.Keys == m.Keys
    decreases |w|
  {
    if w != [] {
      var next := Stored(cfg, m, w[0]);
      if next.Some? {
        ReplayKeys(cfg, next.value, w[1..]);
      }
    }
  }

  predicate NoneFor(cfg: Config, w: seq<Send>, p: int) {
    forall k | 0 <= k < |w| :: Placed(cfg, w[k]) && Place(cfg, w[k]) != p
  }

  lemma StoredApart(cfg: Config, m: map<int, Page>, r: Send, p: int, page: Page)
    requires p in m && Placed(cfg, r) && Place(cfg, r) != p && Stored(cfg, m, r).Some?
    ensures Stored(cfg, m[p := page], r) == Some(Stored(cfg, m, r).value[p := page])
    ensures p in Stored(cfg, m, r).value
  {
    hide Remade;
    var q := Place(cfg, r);
    var x := Remade(cfg, r.payload, m[q]).value;
    assert m[p := page][q := x] == m[q := x][p := page];
  }

  /** Records for other pages leave a page alone. */
  lemma {:induction false} ReplayApart(cfg: Config, m: map<int, Page>, w: seq<Send>, p: int, page: Page)
    requires p in m && NoneFor(cfg, w, p) && Replay(cfg, m, w).Some?
    ensures Replay(cfg, m[p := page], w) == Some(Replay(cfg, m, w).value[p := page])
    decreases |w|
  {
    hide Stored;
    if w != [] {
      StoredApart(cfg, m, w[0], p, page);
      ReplayApart(cfg, Stored(cfg, m, w[0]).value, w[1..], p, page);
    }
  }

  function Refilled(r: Send, page: Page): Send { r.(payload := WholePage(page)) }

  /** Changing the content of the last record for a page changes that page,
      and no other. */
  lemma {:induction false} ReplayRefilled(cfg: Config, m: map<int, Page>, w: seq<Send>, j: nat, page: Page)
    requires j < |w| && Placed(cfg, w[j]) && NoneFor(cfg, w[j + 1..], Place(cfg, w[j])) && Replay(cfg, m, w).Some?
    ensures Replay(cfg, m, w[j := Refilled(w[j], page)]) == Some(Replay(cfg, m, w).value[Place(cfg, w[j]) := page])
    decreases j
  {
    var v := w[j := Refilled(w[j], page)];
    var next := Stored(cfg, m, w[0]).value;
    if j == 0 {
      var p := Place(cfg, w[0]);
      assert v[1..] == w[1..];
      assert Stored(cfg, m, v[0]) == Some(next[p := page]) by {
        assert next[p := page] == m[p := page];
      }
      ReplayApart(cfg, next, w[1..], p, page);
    } else {
      assert v[0] == w[0] && v[1..] == w[1..][j - 1 := Refilled(w[j], page)];
      assert w[1..][j..] == w[j + 1..];
      ReplayRefilled(cfg, next, w[1..], j - 1, page);
    }
  }

  // ---- the record of a call

  ghost predicate SizedRecord(cfg: Config, r: Send) {
    (r.payload.WholePage? ==> |r.payload.page| == cfg.pageSize) && (r.payload.DeltaPage? ==> |r.payload.delta| <= cfg.pageSize)
  }

  /** From s to t the record r was sent, or nothing. */
  ghost predicate Recorded(cfg: Config, s: State, t: State, r: Option<Send>) {
    match r
    case None => t.sent == s.sent && t.lastSent == s.lastSent && t.dst == s.dst && t.pending == s.pending
    case Some(send) =>
      && t.lastSent == Some(send.block)
      && t.sent == s.sent + [send] && Placed(cfg, send) && SizedRecord(cfg, send) && Place(cfg, send) in s.dst
      && var p := Place(cfg, send);
         var page := Remade(cfg, send.payload, s.dst[p]);
         if send.payload.LatePage? then t.dst == s.dst && t.pending == s.pending + {p}
         else
           && page.Some? && t.dst == s.dst[p := page.value] && t.pending == s.pending - {p}
           && (send.payload.DeltaPage? ==> p !in s.pending)
  }

  lemma XbzrleRecorded(cfg: Config, s: State, o: Observation, p: int, i: nat, off: nat) returns (r: Option<Send>)
    requires i < |cfg.blocks| && off < cfg.blocks[i].pages && p == cfg.blocks[i].base + off
    requires 2 <= cfg.pageSize <= 0x3fff && Sized(cfg, s.cache) && p in s.dst && |o.copy| == |o.recopy| == cfg.pageSize
    requires p in s.cache ==> p !in s.pending && s.dst[p] == s.cache[p]
    ensures Recorded(cfg, s, SaveXbzrle(cfg, s, o, p, i, off).state, r)
  {
    hide Xbzrle.Encode, Xbzrle.Decode;
    var t := SaveXbzrle(cfg, s, o, p, i, off).state;
    if p in s.cache && Xbzrle.Encode(s.cache[p], o.copy, |o.copy|).Encoded? {
      Xbzrle.RoundTrip(s.cache[p], o.copy, |o.copy|);
    }
    r := if t.sent == s.sent then None else Some(t.sent[|t.sent| - 1]);
  }

  lemma SendRecorded(cfg: Config, s: State, o: Observation, p: int, i: nat, off: nat) returns (r: Option<Send>)
    requires i < |cfg.blocks| && off < cfg.blocks[i].pages && p == cfg.blocks[i].base + off
    requires 2 <= cfg.pageSize <= 0x3fff && Sized(cfg, s.cache) && Sized(cfg, s.dst) && p in s.dst
    requires |o.copy| == |o.recopy| == cfg.pageSize
    requires p in s.cache ==> p !in s.pending && s.dst[p] == s.cache[p]
    ensures Recorded(cfg, s, SendPage(cfg, s, o, p, i, off).state, r)
  {
    hide SaveXbzrle;
    if o.zeroTest == Zero(cfg) {
      assert seq(|s.dst[p]|, _ => 0) == Zero(cfg);
      r := Some(Send(i, off, ZeroPage));
    } else if !s.bulk && cfg.xbzrle {
      r := XbzrleRecorded(cfg, s, o, p, i, off);
    } else {
      r := Some(Send(i, off, LatePage));
    }
  }

  lemma PassRecorded(cfg: Config, s: State, c: Cursor, o: Observation) returns (r: Option<Send>)
    requires Shape(cfg, s) && Content(cfg, s) && c.block < |cfg.blocks| && BulkNextMarked(cfg, s, c)
    requires Plausible(cfg, s, o, PageAt(cfg, s, c, o))
    ensures Recorded(cfg, s, OnePass(cfg, s, c, o).state, r)
    ensures !OnePass(cfg, s, c, o).done ==> r.None?
  {
    hide FindAndReset, SendPage, OnePass, Kind, Remade, RamPages, Recorded;
    var b := cfg.blocks[c.block];
    var f := FindAndReset(GuestWrote(s, o.writes), b, c.offset);
    var t := OnePass(cfg, s, c, o).state;
    PassFrame(cfg, s, c, o);
    PassOutcome(cfg, s, c, o);
    PassKind(cfg, s, c, o);
    FoundPage(cfg, s, c, o);
    if Kind(cfg, s, c, o).Sent? {
      var p := b.base + f.next;
      BlockPagesInRam(cfg, c.block, p);
      assert CachedPage(s, p);
      r := SendRecorded(cfg, f.state, o, p, c.block, f.next);
      SentState(cfg, s, c, o);
      RecordedFrom(cfg, s, f.state, t, t, r);
    } else {
      r := None;
      NothingRecorded(cfg, s, t);
    }
  }

  lemma NothingRecorded(cfg: Config, s: State, t: State)
    requires t.sent == s.sent && t.lastSent == s.lastSent && t.dst == s.dst && t.pending == s.pending
    ensures Recorded(cfg, s, t, None)
  {
  }

  /** Only the destination, the queue and the stream matter. */
  lemma RecordedFrom(cfg: Config, s: State, s': State, t: State, t': State, r: Option<Send>)
    requires s.sent == s'.sent && s.lastSent == s'.lastSent && s.dst == s'.dst && s.pending == s'.pending
    requires t.sent == t'.sent && t.lastSent == t'.lastSent && t.dst == t'.dst && t.pending == t'.pending
    requires Recorded(cfg, s', t', r)
    ensures Recorded(cfg, s, t, r)
  {
    hide Remade, Placed, SizedRecord;
  }

  lemma SentState(cfg: Config, s: State, c: Cursor, o: Observation)
    requires c.block < |cfg.blocks| && Kind(cfg, s, c, o).Sent?
    ensures var b := cfg.blocks[c.block];
      var f := FindAndReset(GuestWrote(s, o.writes), b, c.offset);
      OnePass(cfg, s, c, o).state == SendPage(cfg, f.state, o, b.base + f.next, c.block, Max(f.next, 0)).state
  {
    hide FindAndReset, SendPage;
  }

  /** A call of ram_save_block sends one record, or none. */
  lemma {:induction false} CallRecorded(cfg: Config, s: State, c: Cursor, os: seq<Observation>, bulkStart: bool) returns (r: Option<Send>)
    requires Shape(cfg, s) && Tallied(cfg, s) && Content(cfg, s) && InCall(cfg, s, c, bulkStart)
    requires Calls(cfg, s, c, os)
    ensures Recorded(cfg, s, LastPass(cfg, s, c, os).state, r)
    decreases |os|
  {
    hide Shape, Tallied, Content, InCall, OnePass, RamPages, Plausible, Remade, SizedRecord, Placed;
    ValidConfig(cfg, s);
    InCallMarked(cfg, s, c, bulkStart, os[0]);
    r := PassRecorded(cfg, s, c, os[0]);
    var p := OnePass(cfg, s, c, os[0]);
    if !p.done {
      PassKeeps(cfg, s, c, os[0]);
      GoingOnNotDropped(cfg, s, c, os[0]);
      GoesOn(cfg, s, c, os[0], bulkStart);
      r := CallRecorded(cfg, p.state, p.cursor, os[1..], bulkStart);
    }
  }

  lemma SaveRecorded(cfg: Config, s: State, os: seq<Observation>) returns (r: Option<Send>)
    requires Inv(cfg, s) && Calls(cfg, s, Start(s), os)
    ensures Recorded(cfg, s, Ended(LastPass(cfg, s, Start(s), os)), r)
  {
    hide Shape, Tallied, Content, Calls, LastPass, Recorded, InCall, CursorValid;
    CallStarts(cfg, s);
    r := CallRecorded(cfg, s, Start(s), os, s.bulk);
    var p := LastPass(cfg, s, Start(s), os);
    RecordedFrom(cfg, s, s, Ended(p), p.state, r);
  }

  // ---- the wire of a run

  /** Index of the last record for page p, -1 if there is none. */
  function LastFor(cfg: Config, w: seq<Send>, p: int): (j: int)
    requires AllPlaced(cfg, w)
    ensures -1 <= j < |w| && (j >= 0 ==> Place(cfg, w[j]) == p)
    ensures forall k | j < k < |w| :: Place(cfg, w[k]) != p
  {
    if w == [] then -1
    else if Place(cfg, w[|w| - 1]) == p then |w| - 1
    else LastFor(cfg, w[..|w| - 1], p)
  }

  function Filled(r: Send, page: Page): Send { if r.payload.LatePage? then Refilled(r, page) else r }

  /** The wire after one event.  late(k) is what the k-th record holds, if it
      is late, until it is flushed: whatever it went out with in case a later
      record for the page overtakes it. */
  function WireStep(cfg: Config, s: State, e: Event, w: seq<Send>, late: nat -> Page): seq<Send>
    requires cfg.word > 0 && Enabled(cfg, s, e)
  {
    match e
    case Save(_) =>
      var sent := Step(cfg, s, e).sent;
      if |sent| > |w| then w + [Filled(sent[|w|], late(|w|))] else w
    case Flush(p, page, _) =>
      if !AllPlaced(cfg, w) || LastFor(cfg, w, p) < 0 then w
      else
        var j := LastFor(cfg, w, p);
        w[j := Refilled(w[j], page)]
    case _ => w
  }

  function Wire(cfg: Config, s: State, es: seq<Event>, t: State, w: seq<Send>, late: nat -> Page): seq<Send>
    requires cfg.word > 0 && Leads(cfg, s, es, t)
    decreases |es|
  {
    if es == [] then w
    else Wire(cfg, Step(cfg, s, es[0]), es[1..], t, WireStep(cfg, s, es[0], w, late), late)
  }

  /** The block of the last record, if there is one. */
  function LastBlock(w: seq<Send>): Option<nat> { if w == [] then None else Some(w[|w| - 1].block) }

  /** w is the stream of s, late records filled in; last_sent_block is the
      block of its last record. */
  ghost predicate Copied(cfg: Config, s: State, w: seq<Send>) {
    && |w| == |s.sent| && AllPlaced(cfg, w) && s.lastSent == LastBlock(w)
    && forall k | 0 <= k < |w| ::
         && SizedRecord(cfg, w[k]) && w[k].block == s.sent[k].block && w[k].offset == s.sent[k].offset
         && (if s.sent[k].payload.LatePage? then w[k].payload.WholePage? else w[k] == s.sent[k])
  }

  /** Pages in the queue: the last record for each is a late one. */
  ghost predicate Queued(cfg: Config, s: State, w: seq<Send>)
    requires Copied(cfg, s, w)
  {
    forall p | p in s.pending :: var j := LastFor(cfg, w, p); j >= 0 && s.sent[j].payload.LatePage?
  }

  /** Stored in order, the records make the destination's memory of every page
      that is not in the queue. */
  ghost predicate Makes(cfg: Config, dst: map<int, Page>, s: State, w: seq<Send>) {
    var m := Replay(cfg, dst, w);
    && m.Some? && m.value.Keys == s.dst.Keys
    && forall p | p in s.dst && p !in s.pending :: m.value[p] == s.dst[p]
  }

  ghost predicate Carried(cfg: Config, dst: map<int, Page>, s: State, w: seq<Send>) {
    Copied(cfg, s, w) && Queued(cfg, s, w) && Makes(cfg, dst, s, w)
  }

  lemma LastForAppend(cfg: Config, w: seq<Send>, r: Send, p: int)
    requires AllPlaced(cfg, w) && Placed(cfg, r)
    ensures AllPlaced(cfg, w + [r])
    ensures LastFor(cfg, w + [r], p) == if Place(cfg, r) == p then |w| else LastFor(cfg, w, p)
  {
    assert (w + [r])[..|w|] == w;
  }

  lemma LastForUnique(cfg: Config, w: seq<Send>, v: seq<Send>, p: int)
    requires AllPlaced(cfg, w) && AllPlaced(cfg, v) && |w| == |v|
    requires forall k | 0 <= k < |w| :: Place(cfg, w[k]) == Place(cfg, v[k])
    ensures LastFor(cfg, w, p) == LastFor(cfg, v, p)
  {
    hide LastFor;
    var i, j := LastFor(cfg, w, p), LastFor(cfg, v, p);
    assert i >= 0 ==> Place(cfg, v[i]) == p;
    assert j >= 0 ==> Place(cfg, w[j]) == p;
  }

  lemma CopiedOn(cfg: Config, s: State, t: State, w: seq<Send>, send: Send, page: Page)
    requires Copied(cfg, s, w) && Recorded(cfg, s, t, Some(send)) && |page| == cfg.pageSize
    ensures Copied(cfg, t, w + [Filled(send, page)])
  {
    hide Remade;
    var v := w + [Filled(send, page)];
    forall k | 0 <= k < |v|
      ensures Placed(cfg, v[k]) && SizedRecord(cfg, v[k]) && v[k].block == t.sent[k].block && v[k].offset == t.sent[k].offset
      ensures if t.sent[k].payload.LatePage? then v[k].payload.WholePage? else v[k] == t.sent[k]
    {
      if k < |w| {
        assert v[k] == w[k] && t.sent[k] == s.sent[k];
      }
    }
  }

  lemma QueuedOn(cfg: Config, s: State, t: State, w: seq<Send>, send: Send, page: Page)
    requires Copied(cfg, s, w) && Queued(cfg, s, w) && Recorded(cfg, s, t, Some(send))
    requires Copied(cfg, t, w + [Filled(send, page)])
    ensures Queued(cfg, t, w + [Filled(send, page)])
  {
    hide LastFor, Remade, SizedRecord;
    forall p | p in t.pending
      ensures var j := LastFor(cfg, w + [Filled(send, page)], p); j >= 0 && t.sent[j].payload.LatePage?
    {
      LastForAppend(cfg, w, Filled(send, page), p);
      if Place(cfg, send) != p {
        assert p in s.pending;
        assert t.sent[LastFor(cfg, w, p)] == s.sent[LastFor(cfg, w, p)];
      }
    }
  }

  lemma MakesOn(cfg: Config, dst: map<int, Page>, s: State, t: State, w: seq<Send>, send: Send, page: Page)
    requires Makes(cfg, dst, s, w) && Recorded(cfg, s, t, Some(send))
    ensures Makes(cfg, dst, t, w + [Filled(send, page)])
  {
    hide Replay, SizedRecord, Xbzrle.Decode;
    ReplayAppend(cfg, dst, w, Filled(send, page));
  }

  lemma CarriedOn(cfg: Config, dst: map<int, Page>, s: State, t: State, w: seq<Send>, r: Option<Send>, page: Page)
    requires Carried(cfg, dst, s, w) && Recorded(cfg, s, t, r) && |page| == cfg.pageSize
    ensures Carried(cfg, dst, t, if r.Some? then w + [Filled(r.value, page)] else w)
  {
    hide Replay, LastFor, Remade, SizedRecord;
    if r.Some? {
      CopiedOn(cfg, s, t, w, r.value, page);
      QueuedOn(cfg, s, t, w, r.value, page);
      MakesOn(cfg, dst, s, t, w, r.value, page);
    }
  }

  /** A page goes out: its last record, which is late, gets its content. */
  lemma CarriedFlush(cfg: Config, dst: map<int, Page>, s: State, t: State, w: seq<Send>, p: int, page: Page)
    requires Carried(cfg, dst, s, w) && p in s.pending && p in s.dst && |page| == cfg.pageSize
    requires t.sent == s.sent && t.lastSent == s.lastSent && t.dst == s.dst[p := page] && t.pending == s.pending - {p}
    ensures LastFor(cfg, w, p) >= 0
    ensures var j := LastFor(cfg, w, p); Carried(cfg, dst, t, w[j := Refilled(w[j], page)])
  {
    hide Replay, LastFor;
    var j := LastFor(cfg, w, p);
    assert j >= 0 && s.sent[j].payload.LatePage?;
    var v := w[j := Refilled(w[j], page)];
    assert NoneFor(cfg, w[j + 1..], p);
    ReplayRefilled(cfg, dst, w, j, page);
    forall q | q in t.pending
      ensures LastFor(cfg, v, q) == LastFor(cfg, w, q)
    {
      LastForUnique(cfg, w, v, q);
    }
  }

  lemma StepCarried(cfg: Config, dst: map<int, Page>, s: State, e: Event, w: seq<Send>, late: nat -> Page)
    requires Inv(cfg, s) && cfg.word > 0 && Enabled(cfg, s, e) && (forall k :: |late(k)| == cfg.pageSize)
    requires Carried(cfg, dst, s, w)
    ensures Carried(cfg, dst, Step(cfg, s, e), WireStep(cfg, s, e, w, late))
  {
    hide Calls, LastPass, Carried, Sync, LastFor, Inv;
    var t := Step(cfg, s, e);
    CarriedLength(cfg, dst, s, w);
    match e
    case Save(os) => SaveCarried(cfg, dst, s, os, w, late(|w|));
    case Flush(p, page, _) =>
      PendingInRam(cfg, s, p);
      CarriedFlush(cfg, dst, s, t, w, p, page);
    case _ => CarriedOn(cfg, dst, s, t, w, None, late(0));
  }

  lemma SaveCarried(cfg: Config, dst: map<int, Page>, s: State, os: seq<Observation>, w: seq<Send>, page: Page)
    requires Inv(cfg, s) && Calls(cfg, s, Start(s), os) && Carried(cfg, dst, s, w) && |page| == cfg.pageSize
    ensures var t := Ended(LastPass(cfg, s, Start(s), os));
      |t.sent| >= |w| && Carried(cfg, dst, t, if |t.sent| > |w| then w + [Filled(t.sent[|w|], page)] else w)
  {
    hide Calls, LastPass, Carried, Inv, Remade, SizedRecord, Placed;
    CarriedLength(cfg, dst, s, w);
    var r := SaveRecorded(cfg, s, os);
    CarriedOn(cfg, dst, s, Ended(LastPass(cfg, s, Start(s), os)), w, r, page);
  }

  lemma CarriedLength(cfg: Config, dst: map<int, Page>, s: State, w: seq<Send>)
    requires Carried(cfg, dst, s, w)
    ensures |w| == |s.sent| && AllPlaced(cfg, w)
  {
  }

  lemma PendingInRam(cfg: Config, s: State, p: int)
    requires Inv(cfg, s) && p in s.pending
    ensures p in s.dst
  {
    hide Content, Tallied, CursorValid;
  }

  lemma {:induction false} WireCarried(cfg: Config, dst: map<int, Page>, s: State, es: seq<Event>, t: State, w: seq<Send>, late: nat -> Page)
    requires Inv(cfg, s) && cfg.word > 0 && Leads(cfg, s, es, t) && (forall k :: |late(k)| == cfg.pageSize)
    requires Carried(cfg, dst, s, w)
    ensures Carried(cfg, dst, t, Wire(cfg, s, es, t, w, late))
    decreases |es|
  {
    hide Inv, Enabled, Step, LosesPage, Carried, WireStep;
    if es != [] {
      StepCarried(cfg, dst, s, es[0], w, late);
      StepKeeps(cfg, s, es[0]);
      WireCarried(cfg, dst, Step(cfg, s, es[0]), es[1..], t, WireStep(cfg, s, es[0], w, late), late);
    }
  }

  /** Whatever happened in a migration, once the queue is empty the records on
      the wire, stored in order in the destination's memory as it was before,
      make the memory the machine says the destination has. */
  lemma WireMakesMemory(cfg: Config, src: map<int, Page>, dst: map<int, Page>, log: set<int>, es: seq<Event>, t: State, late: nat -> Page)
    requires cfg.Valid() && src.Keys == dst.Keys == RamPages(cfg.blocks) && Sized(cfg, src) && Sized(cfg, dst)
    requires forall q | q in log :: 0 <= q
    requires Leads(cfg, Initial(cfg, src, dst, log), es, t) && t.pending == {}
    requires forall k :: |late(k)| == cfg.pageSize
    ensures var w := Wire(cfg, Initial(cfg, src, dst, log), es, t, [], late);
      Copied(cfg, t, w) && Replay(cfg, dst, w) == Some(t.dst)
  {
    hide RamPages, LastPage, Leads, Inv, Wire, Carried;
    var s := Initial(cfg, src, dst, log);
    InitialInv(cfg, src, dst, log);
    StartsCarried(cfg, dst, s);
    WireCarried(cfg, dst, s, es, t, [], late);
    NothingQueued(cfg, dst, t, Wire(cfg, s, es, t, [], late));
  }

  lemma NothingQueued(cfg: Config, dst: map<int, Page>, t: State, w: seq<Send>)
    requires Carried(cfg, dst, t, w) && t.pending == {}
    ensures Copied(cfg, t, w) && Replay(cfg, dst, w) == Some(t.dst)
  {
    hide Replay;
    var m := Replay(cfg, dst, w).value;
    assert m.Keys == t.dst.Keys;
    assert forall p | p in t.dst :: p in t.dst.Keys && m[p] == t.dst[p];
    assert m == t.dst;
  }

  lemma StartsCarried(cfg: Config, dst: map<int, Page>, s: State)
    requires s.sent == [] && s.lastSent == None && s.pending == {} && s.dst == dst
    ensures Carried(cfg, dst, s, [])
  {
  }
}
