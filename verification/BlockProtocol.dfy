/** Safety and progress of the request-tracking protocol, for every
    interleaving of any number of reads, writes, zero writes and
    copy-on-read requests. */
module BlockProtocol {
  import opened Common
  import opened TrackedRequests

  // ---- the invariant

  /** Facts about one request that hold wherever its coroutine is. */
  ghost predicate Local(disk: map<int, Byte>, r: Request) {
    && r.shape.Valid()
    && r.overlapOffset == HullLo(r.shape, r.serialising)
    && r.overlapOffset + r.overlapBytes == HullHi(r.shape, r.serialising)
    && Disciplined(r.shape, r.serialising, r.holding, r.buf.Keys, r.script)
    && Covers(r.shape, r.written, r.buf.Keys, r.script)
    && (r.serialising && !r.holding ==> r.buf == map[] && r.written <= r.early)
    && (forall p :: p in r.written ==> r.shape.Owes(p))
    && (r.shape.data == [] ==> r.early == {} && (r.written != {} ==> r.serialising))
    && PaddingCurrent(disk, r)
    && StoredCurrent(disk, r)
  }

  /** Everything a serialising request has read around its own range is still
      what the disk holds. */
  ghost predicate PaddingCurrent(disk: map<int, Byte>, r: Request) {
    r.serialising && r.holding ==>
      forall p :: p in r.buf ==>
        r.overlapOffset <= p < r.overlapOffset + r.overlapBytes &&
        (r.shape.Owns(p) || r.buf[p] == ByteAt(disk, p))
  }

  /** Everything it has stored since it became serialising is still there. */
  ghost predicate StoredCurrent(disk: map<int, Byte>, r: Request) {
    r.serialising && r.holding ==>
      forall p :: p in r.written - r.early ==>
        r.overlapOffset <= p < r.overlapOffset + r.overlapBytes &&
        ByteAt(disk, p) == Payload(r, p)
  }

  /** A request whose coroutine has yielded: blocked in a wait, or in I/O. */
  ghost predicate Yielded(r: Request) {
    && r.script != []
    && (r.waitingFor.Some? ==> r.script[0].Wait? && !r.holding)
    && (r.waitingFor.None? ==> IsIo(r.script[0]) && r.holding &&
                               r.done <= Range(r.script[0].lo, r.script[0].hi) &&
                               (r.script[0].Read? ==> r.done <= r.buf.Keys) &&
                               (r.script[0].Write? ==> forall p | p in r.done && r.shape.Owes(p) :: p in r.written))
  }

  ghost function Serialising(s: State): set<ReqId> {
    set x | x in s.reqs && s.reqs[x].serialising
  }

  /** Holders never conflict: mutual exclusion. */
  ghost predicate Exclusive(s: State) {
    forall a, b :: a in s.reqs && b in s.reqs && a != b && s.reqs[a].holding && s.reqs[b].holding
      ==> !Conflict(s.reqs[a], s.reqs[b])
  }

  ghost predicate WaitsFor(s: State, a: ReqId, b: ReqId) {
    a in s.reqs && b in s.reqs && s.reqs[a].waitingFor == Some(b)
  }

  /** Along waiting_for, the time a request started to wait goes up. */
  ghost predicate Ordered(s: State) {
    && (forall a | a in s.reqs && s.reqs[a].waitingFor.Some? ::
          s.reqs[a].stamp < s.clock && s.reqs[a].waitingFor.value < s.nextId)
    && (forall a, b | WaitsFor(s, a, b) && s.reqs[b].waitingFor.Some? ::
          s.reqs[a].stamp < s.reqs[b].stamp)
  }

  ghost predicate Shared(s: State) {
    && WellFormed(s)
    && s.serialisingInFlight == |Serialising(s)|
    && (forall x :: x in s.reqs ==> Local(s.disk, s.reqs[x]))
    && Exclusive(s)
    && Ordered(s)
  }

  ghost predicate Inv(s: State) {
    Shared(s) && forall x :: x in s.reqs ==> Yielded(s.reqs[x])
  }

  /** The state while the coroutine of id is running. */
  ghost predicate Running(s: State, id: ReqId) {
    && Shared(s) && id in s.reqs && s.reqs[id].waitingFor.None?
    && forall x :: x in s.reqs && x != id ==> Yielded(s.reqs[x])
  }

  // ---- the counter

  /** The early return on a zero counter agrees with the full scan. */
  lemma EarlyReturnAgrees(s: State, id: ReqId)
    requires WellFormed(s) && id in s.reqs && s.serialisingInFlight == |Serialising(s)|
    ensures Blocker(s, id) == Scan(s, id, s.list)
  {
    if s.serialisingInFlight == 0 {
      assert forall x :: x in s.reqs ==> x !in Serialising(s);
      assert forall x :: x in s.list ==> !Blocks(s, id, x);
    }
  }

  // ---- one request runs

  /** The request r may stand in for id without upsetting the other holders. */
  ghost predicate Fits(s: State, id: ReqId, r: Request) {
    r.holding ==> forall b | b in s.reqs && b != id && s.reqs[b].holding ::
      !Conflict(r, s.reqs[b]) && !Conflict(s.reqs[b], r)
  }

  /** q already held the range that r claims. */
  predicate SameClaim(r: Request, q: Request) {
    && q.holding && r.serialising == q.serialising
    && r.overlapOffset == q.overlapOffset && r.overlapBytes == q.overlapBytes
  }

  lemma FitsAsBefore(s: State, id: ReqId, r: Request)
    requires id in s.reqs && Exclusive(s)
    requires r.holding ==> SameClaim(r, s.reqs[id])
    ensures Fits(s, id, r)
  {
  }

  lemma ReplacedCount(s: State, id: ReqId, r: Request)
    requires id in s.reqs
    ensures |Serialising(Put(s, id, r))| == |Serialising(s)|
             + (if r.serialising then 1 else 0) - (if s.reqs[id].serialising then 1 else 0)
  {
    OthersCount(s, id);
    OthersCount(Put(s, id, r), id);
    assert Serialising(Put(s, id, r)) - {id} == Serialising(s) - {id};
  }

  lemma OthersCount(s: State, id: ReqId)
    requires id in s.reqs
    ensures |Serialising(s)| == |Serialising(s) - {id}| + if s.reqs[id].serialising then 1 else 0
  {
    if s.reqs[id].serialising {
      assert id in Serialising(s);
    } else {
      assert Serialising(s) - {id} == Serialising(s);
    }
  }

  lemma ReplacedOrdered(s: State, id: ReqId, r: Request)
    requires id in s.reqs && Ordered(s) && r.waitingFor.None?
    ensures Ordered(Put(s, id, r))
  {
    var t := Put(s, id, r);
    forall a, b | WaitsFor(t, a, b) && t.reqs[b].waitingFor.Some?
      ensures t.reqs[a].stamp < t.reqs[b].stamp
    {
      assert WaitsFor(s, a, b);
    }
  }

  lemma ReplacedExclusive(s: State, id: ReqId, r: Request)
    requires id in s.reqs && Exclusive(s) && Fits(s, id, r)
    ensures Exclusive(Put(s, id, r))
  {
    hide Conflict;
  }

  /** Replacing one request keeps the shared invariant. */
  lemma Replaced(s: State, id: ReqId, r: Request, inFlight: int)
    requires Shared(s) && id in s.reqs && Local(s.disk, r) && r.shape.Valid()
    requires Fits(s, id, r) && r.waitingFor.None?
    requires inFlight == s.serialisingInFlight
             + (if r.serialising then 1 else 0) - (if s.reqs[id].serialising then 1 else 0)
    ensures Shared(Put(s, id, r).(serialisingInFlight := inFlight))
  {
    hide Local, Fits, Exclusive, Ordered, Serialising;
    var m := Put(s, id, r);
    ReplacedCount(s, id, r);
    ReplacedOrdered(s, id, r);
    ReplacedExclusive(s, id, r);
    SharedByReqs(m, m.(serialisingInFlight := inFlight));
  }

  /** Exclusion, wait order and the count depend on the requests only. */
  lemma SharedByReqs(m: State, t: State)
    requires t == m.(disk := t.disk, serialisingInFlight := t.serialisingInFlight)
    requires WellFormed(m) && Exclusive(m) && Ordered(m)
    ensures WellFormed(t) && Exclusive(t) && Ordered(t) && Serialising(t) == Serialising(m)
  {
    hide Conflict, Shape.Valid;
    assert forall a, b :: WaitsFor(t, a, b) ==> WaitsFor(m, a, b);
  }

  lemma EndedCount(s: State, id: ReqId)
    requires id in s.reqs
    ensures |Serialising(Ended(s, id))| == |Serialising(s)| - (if s.reqs[id].serialising then 1 else 0)
  {
    assert Serialising(Ended(s, id)) == Serialising(s) - {id};
  }

  lemma EndedOrdered(s: State, id: ReqId)
    requires id in s.reqs && Ordered(s)
    ensures Ordered(Ended(s, id))
  {
    var t := Ended(s, id);
    forall a, b | WaitsFor(t, a, b) && t.reqs[b].waitingFor.Some?
      ensures t.reqs[a].stamp < t.reqs[b].stamp
    {
      assert WaitsFor(s, a, b);
    }
  }

  lemma EndedExclusive(s: State, id: ReqId)
    requires id in s.reqs && WellFormed(s) && Exclusive(s)
    ensures WellFormed(Ended(s, id)) && Exclusive(Ended(s, id))
  {
    hide Conflict, Shape.Valid;
  }

  lemma EndedShared(s: State, id: ReqId)
    requires Shared(s) && id in s.reqs
    ensures Shared(Ended(s, id))
  {
    hide Local, Ordered, Exclusive, WellFormed;
    EndedCount(s, id);
    EndedOrdered(s, id);
    EndedExclusive(s, id);
  }

  lemma CoversTail(shape: Shape, written: set<int>, fetched: set<int>, script: seq<Instr>)
    requires script != [] && Covers(shape, written, fetched, script)
    requires script[0].Write? ==> forall p :: shape.Owes(p) && script[0].lo <= p < script[0].hi ==> p in written
    requires script[0].Read? ==> forall p :: shape.Wants(p) && script[0].lo <= p < script[0].hi ==> p in fetched
    ensures Covers(shape, written, fetched, script[1..])
  {
    var rest := script[1..];
    forall p | shape.Owes(p) && p !in written
      ensures WillWrite(rest, p)
    {
      assert WillWrite(script, p);
      var i :| 0 <= i < |script| && script[i].Write? && script[i].lo <= p < script[i].hi;
      assert i > 0;
      assert rest[i - 1] == script[i];
    }
    forall p | shape.Wants(p) && p !in fetched
      ensures WillRead(rest, p)
    {
      assert WillRead(script, p);
      var i :| 0 <= i < |script| && script[i].Read? && script[i].lo <= p < script[i].hi;
      assert i > 0;
      assert rest[i - 1] == script[i];
    }
  }

  lemma MarkedLocal(s: State, id: ReqId)
    requires id in s.reqs && Local(s.disk, s.reqs[id])
    requires s.reqs[id].script != [] && s.reqs[id].script[0].Mark?
    ensures Local(s.disk, Marked(s, id).reqs[id])
    ensures Marked(s, id).reqs[id].holding ==> SameClaim(Marked(s, id).reqs[id], s.reqs[id])
  {
    var r := s.reqs[id];
    Rounding(r.shape.offset, r.shape.align);
    Rounding(r.shape.End(), r.shape.align);
    CoversTail(r.shape, r.written, r.buf.Keys, r.script);
  }

  lemma MarkedRunning(s: State, id: ReqId)
    requires Running(s, id) && s.reqs[id].script != [] && s.reqs[id].script[0].Mark?
    ensures Running(Marked(s, id), id)
  {
    MarkedLocal(s, id);
    hide Local, Yielded, Fits, Exclusive, Ordered;
    var t := Marked(s, id);
    FitsAsBefore(s, id, t.reqs[id]);
    Replaced(s, id, t.reqs[id], t.serialisingInFlight);
  }

  lemma PassedLocal(disk: map<int, Byte>, r: Request)
    requires Local(disk, r) && r.script != [] && r.script[0].Wait?
    ensures Local(disk, r.(script := r.script[1..], holding := true))
  {
    CoversTail(r.shape, r.written, r.buf.Keys, r.script);
  }

  /** When no request blocks it, id conflicts with no holder. */
  lemma PassedFits(s: State, id: ReqId)
    requires Running(s, id) && s.reqs[id].script != [] && Blocker(s, id).None?
    ensures Fits(s, id, Passed(s, id).reqs[id])
  {
    hide Local, Exclusive, Ordered;
    EarlyReturnAgrees(s, id);
    var r := Passed(s, id).reqs[id];
    forall b | b in s.reqs && b != id && s.reqs[b].holding
      ensures !Conflict(r, s.reqs[b]) && !Conflict(s.reqs[b], r)
    {
      assert Yielded(s.reqs[b]);
      assert b in s.list;
      assert !Blocks(s, id, b);
    }
  }

  lemma PassedRunning(s: State, id: ReqId)
    requires Running(s, id) && s.reqs[id].script != [] && s.reqs[id].script[0].Wait?
    requires Blocker(s, id).None?
    ensures Running(Passed(s, id), id)
  {
    hide Local, Yielded, Fits, Exclusive, Ordered;
    PassedFits(s, id);
    PassedLocal(s.disk, s.reqs[id]);
    var t := Passed(s, id);
    Replaced(s, id, t.reqs[id], t.serialisingInFlight);
  }

  /** A serialising request that holds its range never blocks again. */
  lemma HolderNeverBlocks(s: State, id: ReqId)
    requires Running(s, id) && s.reqs[id].serialising && s.reqs[id].holding
    ensures Blocker(s, id).None?
  {
    hide Local, Ordered;
    EarlyReturnAgrees(s, id);
    forall x | x in s.list
      ensures !Blocks(s, id, x)
    {
      if x != id && s.reqs[x].waitingFor.None? {
        assert Yielded(s.reqs[x]);
      }
    }
  }

  lemma BlockedLocal(disk: map<int, Byte>, r: Request, b: ReqId, stamp: nat)
    requires Local(disk, r) && r.script != [] && r.script[0].Wait? && !(r.serialising && r.holding)
    ensures Local(disk, r.(holding := false))
    ensures Local(disk, r.(waitingFor := Some(b), holding := false, stamp := stamp))
  {
  }

  lemma BlockedOrdered(s: State, id: ReqId, b: ReqId)
    requires Ordered(s) && id in s.reqs && b in s.reqs && b != id && b < s.nextId
    requires s.reqs[id].waitingFor.None? && s.reqs[b].waitingFor.None?
    ensures Ordered(Blocked(s, id, b))
  {
    var t := Blocked(s, id, b);
    forall a, c | WaitsFor(t, a, c) && t.reqs[c].waitingFor.Some?
      ensures t.reqs[a].stamp < t.reqs[c].stamp
    {
      assert a != id;
      assert c != id ==> WaitsFor(s, a, c);
    }
  }

  lemma BlockedInv(s: State, id: ReqId, b: ReqId)
    requires Running(s, id) && s.reqs[id].script != [] && s.reqs[id].script[0].Wait?
    requires Blocker(s, id) == Some(b)
    ensures Inv(Blocked(s, id, b))
  {
    hide Local, Fits, Exclusive, Ordered, Conflict, Yielded;
    EarlyReturnAgrees(s, id);
    if s.reqs[id].serialising && s.reqs[id].holding {
      HolderNeverBlocks(s, id);
      assert false;
    }
    assert Blocks(s, id, b);
    var r := s.reqs[id];
    BlockedLocal(s.disk, r, b, s.clock);
    BlockedOrdered(s, id, b);
    var t := Blocked(s, id, b);
    ReplacedCount(s, id, t.reqs[id]);
    BlockedShared(s, id, b);
    BlockedYielded(s, id, b);
  }

  lemma BlockedYielded(s: State, id: ReqId, b: ReqId)
    requires id in s.reqs && s.reqs[id].script != [] && s.reqs[id].script[0].Wait?
    ensures Yielded(Blocked(s, id, b).reqs[id])
  {
  }

  lemma BlockedShared(s: State, id: ReqId, b: ReqId)
    requires Shared(s) && id in s.reqs
    requires Local(s.disk, Blocked(s, id, b).reqs[id]) && Ordered(Blocked(s, id, b))
    ensures Shared(Blocked(s, id, b))
  {
    hide Local, Conflict, Ordered;
    var t := Blocked(s, id, b);
    ReplacedCount(s, id, t.reqs[id]);
    assert Serialising(t) == Serialising(Put(s, id, t.reqs[id]));
  }

  lemma IoStartedLocal(disk: map<int, Byte>, r: Request)
    requires Local(disk, r) && r.script != [] && IsIo(r.script[0]) && r.waitingFor.None?
    ensures Local(disk, r.(done := {})) && Yielded(r.(done := {}))
  {
    assert r.holding;
    hide Disciplined, Covers;
  }

  lemma IoStartedInv(s: State, id: ReqId)
    requires Running(s, id) && s.reqs[id].script != [] && IsIo(s.reqs[id].script[0])
    ensures Inv(Put(s, id, s.reqs[id].(done := {})))
  {
    hide Local, Fits, Exclusive, Ordered, Yielded, Serialising;
    var r := s.reqs[id].(done := {});
    IoStartedLocal(s.disk, s.reqs[id]);
    FitsAsBefore(s, id, r);
    Replaced(s, id, r, s.serialisingInFlight);
  }

  /** The parts of the state a run of id cannot touch. */
  ghost predicate Untouched(s: State, t: State, id: ReqId) {
    && id in s.reqs && t.disk == s.disk && t.nextId == s.nextId
    && t.reqs.Keys <= s.reqs.Keys <= t.reqs.Keys + {id}
    && (forall x :: x in t.reqs && x != id ==> t.reqs[x] == s.reqs[x])
    && (id in t.reqs ==> t.reqs[id].buf == s.reqs[id].buf &&
                         t.reqs[id].shape == s.reqs[id].shape && t.reqs[id].written == s.reqs[id].written)
  }

  lemma {:induction false} RunInv(s: State, id: ReqId)
    requires Running(s, id)
    ensures Inv(Run(s, id))
    decreases |s.reqs[id].script|
  {
    hide Local, Yielded, Exclusive, Ordered;
    var r := s.reqs[id];
    if r.script == [] {
      EndedShared(s, id);
    } else {
      match r.script[0]
      case Mark =>
        MarkedRunning(s, id);
        RunInv(Marked(s, id), id);
      case Wait(_) =>
        var b := Blocker(s, id);
        if b.Some? {
          BlockedInv(s, id, b.value);
        } else {
          PassedRunning(s, id);
          RunInv(Passed(s, id), id);
        }
      case _ =>
        IoStartedInv(s, id);
    }
  }

  lemma {:induction false} RunUntouched(s: State, id: ReqId)
    requires WellFormed(s) && id in s.reqs
    ensures Untouched(s, Run(s, id), id)
    decreases |s.reqs[id].script|
  {
    var r := s.reqs[id];
    if r.script != [] && r.script[0].Mark? {
      RunUntouched(Marked(s, id), id);
    } else if r.script != [] && r.script[0].Wait? && Blocker(s, id).None? {
      RunUntouched(Passed(s, id), id);
    }
  }

  /** A request that ends without an error has stored and read all it had to. */
  lemma {:induction false} RunEnds(s: State, id: ReqId)
    requires Running(s, id) && id !in Run(s, id).reqs
    ensures forall p :: s.reqs[id].shape.Owes(p) ==> p in s.reqs[id].written
    ensures forall p :: s.reqs[id].shape.Wants(p) ==> p in s.reqs[id].buf
    decreases |s.reqs[id].script|
  {
    var r := s.reqs[id];
    if r.script == [] {
      assert Local(s.disk, r);
    } else if r.script[0].Mark? {
      MarkedRunning(s, id);
      RunEnds(Marked(s, id), id);
    } else if r.script[0].Wait? {
      PassedRunning(s, id);
      RunEnds(Passed(s, id), id);
    }
  }

  // ---- every event keeps the invariant

  lemma BegunLocal(s: State, shape: Shape, script: seq<Instr>)
    requires shape.Valid() && Disciplined(shape, false, false, {}, script) && Covers(shape, {}, {}, script)
    ensures Local(s.disk, Begun(s, shape, script).reqs[s.nextId])
  {
    hide Disciplined, Covers;
    assert Begun(s, shape, script).reqs[s.nextId].buf.Keys == {};
  }

  lemma BegunOrdered(s: State, shape: Shape, script: seq<Instr>)
    requires WellFormed(s) && Ordered(s)
    ensures Ordered(Begun(s, shape, script))
  {
    var t := Begun(s, shape, script);
    forall a, b | WaitsFor(t, a, b) && t.reqs[b].waitingFor.Some?
      ensures t.reqs[a].stamp < t.reqs[b].stamp
    {
      assert WaitsFor(s, a, b);
    }
  }

  lemma BegunExclusive(s: State, shape: Shape, script: seq<Instr>)
    requires WellFormed(s) && Exclusive(s) && shape.Valid()
    ensures WellFormed(Begun(s, shape, script)) && Exclusive(Begun(s, shape, script))
    ensures Serialising(Begun(s, shape, script)) == Serialising(s)
  {
    hide Conflict;
  }

  lemma BegunRunning(s: State, shape: Shape, script: seq<Instr>)
    requires Inv(s) && shape.Valid() && Disciplined(shape, false, false, {}, script) && Covers(shape, {}, {}, script)
    ensures Running(Begun(s, shape, script), s.nextId)
  {
    hide Local, Yielded, Ordered, Exclusive, Serialising, Disciplined, Covers;
    BegunLocal(s, shape, script);
    BegunOrdered(s, shape, script);
    BegunExclusive(s, shape, script);
  }

  lemma BeginInv(s: State, shape: Shape, script: seq<Instr>)
    requires Inv(s) && Enabled(s, Begin(shape, script))
    ensures Inv(Step(s, Begin(shape, script)))
  {
    hide Shared, Disciplined, Covers, Yielded;
    BegunRunning(s, shape, script);
    RunInv(Begun(s, shape, script), s.nextId);
  }

  lemma CompleteLocal(disk: map<int, Byte>, r: Request)
    requires Local(disk, r) && Yielded(r) && r.waitingFor.None? && ToDo(r) == {}
    ensures Local(disk, r.(script := r.script[1..]))
  {
    var i := r.script[0];
    forall p | i.lo <= p < i.hi
      ensures p in r.done
    {
      assert p in Range(i.lo, i.hi);
    }
    if i.Read? {
      assert r.buf.Keys + Range(i.lo, i.hi) == r.buf.Keys;
    }
    CoversTail(r.shape, r.written, r.buf.Keys, r.script);
  }

  lemma CompleteRunning(s: State, id: ReqId)
    requires Inv(s) && Enabled(s, Complete(id))
    ensures Running(Put(s, id, s.reqs[id].(script := s.reqs[id].script[1..])), id)
  {
    var r := s.reqs[id];
    var r' := r.(script := r.script[1..]);
    CompleteLocal(s.disk, r);
    hide Local, Fits, Exclusive, Ordered, Yielded;
    FitsAsBefore(s, id, r');
    Replaced(s, id, r', s.serialisingInFlight);
  }

  lemma WokenLocal(disk: map<int, Byte>, r: Request)
    requires Local(disk, r) && Yielded(r) && r.waitingFor.Some?
    ensures Local(disk, r.(waitingFor := None)) && !r.holding
  {
    hide Disciplined, Covers;
  }

  lemma WakeRunning(s: State, id: ReqId)
    requires Inv(s) && Enabled(s, Wake(id))
    ensures Running(Put(s, id, s.reqs[id].(waitingFor := None)), id)
  {
    var r := s.reqs[id].(waitingFor := None);
    WokenLocal(s.disk, s.reqs[id]);
    hide Local, Exclusive, Ordered, Yielded, Serialising, Disciplined, Covers;
    Replaced(s, id, r, s.serialisingInFlight);
  }

  lemma ReadByteLocal(disk: map<int, Byte>, r: Request, p: int)
    requires Local(disk, r) && Yielded(r) && r.waitingFor.None? && r.script[0].Read? && p in ToDo(r)
    ensures var r' := r.(buf := r.buf[p := ByteAt(disk, p)], done := r.done + {p});
            Local(disk, r') && Yielded(r')
  {
    var r' := r.(buf := r.buf[p := ByteAt(disk, p)], done := r.done + {p});
    var i := r.script[0];
    assert p in Range(i.lo, i.hi);
    assert r'.buf.Keys + Range(i.lo, i.hi) == r.buf.Keys + Range(i.lo, i.hi);
    assert Disciplined(r.shape, r.serialising, r.holding, r'.buf.Keys, r.script);
    assert Covers(r.shape, r.written, r'.buf.Keys, r.script);
    hide Disciplined, WillWrite;
    assert StoredCurrent(disk, r') && PaddingCurrent(disk, r');
  }

  lemma ReadByteInv(s: State, id: ReqId, p: int)
    requires Inv(s) && Enabled(s, ReadByte(id, p))
    ensures Inv(Step(s, ReadByte(id, p)))
  {
    hide Local, Fits, Exclusive, Ordered, Yielded, Serialising, Disciplined, Covers;
    var r' := Step(s, ReadByte(id, p)).reqs[id];
    ReadByteLocal(s.disk, s.reqs[id], p);
    FitsAsBefore(s, id, r');
    Replaced(s, id, r', s.serialisingInFlight);
  }

  /** The byte a write is about to store: inside the writer's hull, and if it
      is padding, the byte already on the disk. */
  lemma WriteByteEffect(disk: map<int, Byte>, r: Request, p: int)
    requires Local(disk, r) && Yielded(r) && r.waitingFor.None? && r.script[0].Write? && p in ToDo(r)
    ensures r.overlapOffset <= p < r.overlapOffset + r.overlapBytes
    ensures !r.shape.Owns(p) ==> Payload(r, p) == ByteAt(disk, p)
  {
    assert p in Range(r.script[0].lo, r.script[0].hi);
  }

  lemma WriteByteLocal(disk: map<int, Byte>, r: Request, p: int)
    requires Local(disk, r) && Yielded(r) && r.waitingFor.None? && r.script[0].Write? && p in ToDo(r)
    ensures var r' := r.(done := r.done + {p},
                         written := if r.shape.Owes(p) then r.written + {p} else r.written);
            Local(disk[p := Payload(r, p)], r') && Yielded(r')
  {
    WriteByteEffect(disk, r, p);
    assert p in Range(r.script[0].lo, r.script[0].hi);
    hide Disciplined, WillWrite;
    var r' := r.(done := r.done + {p},
                 written := if r.shape.Owes(p) then r.written + {p} else r.written);
    assert Covers(r.shape, r'.written, r.buf.Keys, r.script);
    WriteByteContent(disk, r, p);
    assert Yielded(r');
  }

  lemma WriteByteContent(disk: map<int, Byte>, r: Request, p: int)
    requires PaddingCurrent(disk, r) && StoredCurrent(disk, r)
    requires r.overlapOffset <= p < r.overlapOffset + r.overlapBytes
    requires !r.shape.Owns(p) ==> Payload(r, p) == ByteAt(disk, p)
    ensures var r' := r.(done := r.done + {p},
                         written := if r.shape.Owes(p) then r.written + {p} else r.written);
            PaddingCurrent(disk[p := Payload(r, p)], r') && StoredCurrent(disk[p := Payload(r, p)], r')
  {
    var r' := r.(done := r.done + {p},
                 written := if r.shape.Owes(p) then r.written + {p} else r.written);
    forall q
      ensures Payload(r', q) == Payload(r, q)
    {
    }
    assert forall q | q in r'.written - r'.early :: q == p || q in r.written - r.early;
  }

  /** A write inside one holder's hull cannot disturb another request. */
  lemma OtherUndisturbed(disk: map<int, Byte>, w: Request, p: int, v: Byte, r: Request)
    requires w.overlapOffset <= p < w.overlapOffset + w.overlapBytes && w.holding
    requires Local(disk, r) && (r.holding ==> !Conflict(w, r))
    ensures Local(disk[p := v], r)
  {
    hide Disciplined, Covers;
  }

  lemma OthersUndisturbed(s: State, id: ReqId, p: int)
    requires Inv(s) && Enabled(s, WriteByte(id, p))
    ensures forall x | x in s.reqs && x != id :: Local(s.disk[p := Payload(s.reqs[id], p)], s.reqs[x])
  {
    var r := s.reqs[id];
    assert Yielded(r);
    WriteByteEffect(s.disk, r, p);
    hide Local, Yielded, Conflict, Ordered;
    forall x | x in s.reqs && x != id
      ensures Local(s.disk[p := Payload(r, p)], s.reqs[x])
    {
      OtherUndisturbed(s.disk, r, p, Payload(r, p), s.reqs[x]);
    }
  }

  lemma WriteByteInv(s: State, id: ReqId, p: int)
    requires Inv(s) && Enabled(s, WriteByte(id, p))
    ensures Inv(Step(s, WriteByte(id, p)))
  {
    hide Local, Yielded, Fits, Conflict, Ordered, Exclusive, Serialising, Disciplined, Covers;
    OthersUndisturbed(s, id, p);
    WriteByteLocal(s.disk, s.reqs[id], p);
    var t := Step(s, WriteByte(id, p));
    var r' := t.reqs[id];
    FitsAsBefore(s, id, r');
    var m := Put(s, id, r');
    ReplacedCount(s, id, r');
    ReplacedExclusive(s, id, r');
    ReplacedOrdered(s, id, r');
    SharedByReqs(m, t);
  }

  /** Every event keeps the invariant. */
  lemma StepInv(s: State, e: Event)
    requires Inv(s) && Enabled(s, e)
    ensures Inv(Step(s, e))
  {
    hide Local, Yielded, Exclusive, Ordered;
    match e
    case Begin(shape, script) => BeginInv(s, shape, script);
    case ReadByte(id, p) => ReadByteInv(s, id, p);
    case WriteByte(id, p) => WriteByteInv(s, id, p);
    case Complete(id) =>
      CompleteRunning(s, id);
      RunInv(Put(s, id, s.reqs[id].(script := s.reqs[id].script[1..])), id);
    case Fail(id) => EndedShared(s, id);
    case Wake(id) =>
      WakeRunning(s, id);
      RunInv(Put(s, id, s.reqs[id].(waitingFor := None)), id);
  }

  // ---- whole runs

  function Initial(disk: map<int, Byte>): State {
    State(disk, [], map[], 0, 0, 0)
  }

  /** es can happen in order from s, ending in t. */
  ghost predicate Leads(s: State, es: seq<Event>, t: State)
    requires WellFormed(s)
    decreases |es|
  {
    if es == [] then t == s
    else Enabled(s, es[0]) && WellFormed(Step(s, es[0])) && Leads(Step(s, es[0]), es[1..], t)
  }

  ghost predicate Reachable(t: State) {
    exists disk, es :: Leads(Initial(disk), es, t)
  }

  lemma {:induction false} LeadsInv(s: State, es: seq<Event>, t: State)
    requires Inv(s) && Leads(s, es, t)
    ensures Inv(t)
    decreases |es|
  {
    if es != [] {
      StepInv(s, es[0]);
      LeadsInv(Step(s, es[0]), es[1..], t);
    }
  }

  lemma ReachableInv(t: State)
    requires Reachable(t)
    ensures Inv(t)
  {
    var disk, es :| Leads(Initial(disk), es, t);
    assert Serialising(Initial(disk)) == {};
    LeadsInv(Initial(disk), es, t);
  }

  /** Mutual exclusion: of two conflicting requests, at most one is in I/O. */
  lemma MutualExclusion(s: State, a: ReqId, b: ReqId)
    requires Reachable(s) && InIo(s, a) && InIo(s, b) && a != b
    ensures !Conflict(s.reqs[a], s.reqs[b])
    ensures s.reqs[a].serialising || s.reqs[b].serialising ==> forall p :: !(InOverlap(s.reqs[a], p) && InOverlap(s.reqs[b], p))
  {
    ReachableInv(s);
    assert Yielded(s.reqs[a]) && Yielded(s.reqs[b]);
  }

  /** No lost updates: in every reachable state, the only event that changes
      the disk is a driver write, and the only byte whose content it can
      change is one its request was asked to change, to the value asked for. */
  lemma NoLostUpdates(s: State, e: Event, q: int)
    requires WellFormed(s) && Reachable(s) && Enabled(s, e)
    ensures ByteAt(Step(s, e).disk, q) != ByteAt(s.disk, q) ==>
      e.WriteByte? && e.p == q && s.reqs[e.id].shape.Owns(q) &&
      ByteAt(Step(s, e).disk, q) == s.reqs[e.id].shape.data[q - s.reqs[e.id].shape.offset]
  {
    hide Local, Exclusive, Ordered, Yielded, Run, Disciplined, Covers, Reachable, Untouched;
    ReachableInv(s);
    if e.WriteByte? {
      WriteByteEffect(s.disk, s.reqs[e.id], e.p);
    } else {
      hide Inv;
      OnlyWritesTouchDisk(s, e);
    }
  }

  lemma OnlyWritesTouchDisk(s: State, e: Event)
    requires WellFormed(s) && Enabled(s, e) && !e.WriteByte?
    ensures Step(s, e).disk == s.disk
  {
    hide Run, Disciplined, Covers, Untouched;
    match e
    case Begin(shape, script) => RunDisk(Begun(s, shape, script), s.nextId);
    case ReadByte(id, p) =>
    case Complete(id) => RunDisk(Put(s, id, s.reqs[id].(script := s.reqs[id].script[1..])), id);
    case Fail(id) =>
    case Wake(id) => RunDisk(Put(s, id, s.reqs[id].(waitingFor := None)), id);
  }

  lemma RunDisk(s: State, id: ReqId)
    requires WellFormed(s) && id in s.reqs
    ensures Run(s, id).disk == s.disk
  {
    RunUntouched(s, id);
  }

  /** A request that completes has stored every own byte; if it became
      serialising before its first store, all of them are on the disk when it
      ends, whatever ran meanwhile. */
  lemma CompletedWrite(s: State, id: ReqId)
    requires WellFormed(s) && Reachable(s) && Enabled(s, Complete(id))
    requires id !in Step(s, Complete(id)).reqs
    ensures forall p :: s.reqs[id].shape.Owes(p) ==> p in s.reqs[id].written
    ensures s.reqs[id].serialising && s.reqs[id].early == {} ==>
      forall p :: s.reqs[id].shape.Owns(p) ==>
        ByteAt(Step(s, Complete(id)).disk, p) == s.reqs[id].shape.data[p - s.reqs[id].shape.offset]
  {
    hide Local, Exclusive, Ordered, Yielded, Run, Disciplined, Covers, Reachable;
    ReachableInv(s);
    var m := Put(s, id, s.reqs[id].(script := s.reqs[id].script[1..]));
    CompleteRunning(s, id);
    RunUntouched(m, id);
    RunEnds(m, id);
    StoredOnDisk(s.disk, s.reqs[id]);
  }

  lemma StoredOnDisk(disk: map<int, Byte>, r: Request)
    requires Local(disk, r) && Yielded(r) && r.waitingFor.None?
    ensures r.serialising ==> forall p :: p in r.written - r.early ==> ByteAt(disk, p) == Payload(r, p)
  {
    hide Disciplined, Covers;
  }

  /** A read that completes has read every byte of its range, and so has a
      copy-on-read request, whether it copies or not. */
  lemma CompletedRead(s: State, id: ReqId)
    requires WellFormed(s) && Reachable(s) && Enabled(s, Complete(id))
    requires id !in Step(s, Complete(id)).reqs && s.reqs[id].shape.data == []
    ensures var shape := s.reqs[id].shape; forall p | shape.offset <= p < shape.End() :: p in s.reqs[id].buf
  {
    hide Local, Exclusive, Ordered, Yielded, Run, Disciplined, Covers, Reachable;
    ReachableInv(s);
    var m := Put(s, id, s.reqs[id].(script := s.reqs[id].script[1..]));
    CompleteRunning(s, id);
    RunEnds(m, id);
    assert forall p | s.reqs[id].shape.offset <= p < s.reqs[id].shape.End() :: s.reqs[id].shape.Wants(p);
  }

  /** A copying read that completes has stored every byte of its range, with
      the content it has read, which is what the disk holds. */
  lemma CompletedCopy(s: State, id: ReqId)
    requires WellFormed(s) && Reachable(s) && Enabled(s, Complete(id))
    requires id !in Step(s, Complete(id)).reqs && s.reqs[id].shape.copy
    ensures var r := s.reqs[id];
      forall p | r.shape.offset <= p < r.shape.End() :: p in r.written && p in r.buf && r.buf[p] == ByteAt(s.disk, p)
  {
    hide Exclusive, Ordered, Run, Disciplined, Covers, Reachable, PaddingCurrent;
    ReachableInv(s);
    var r := s.reqs[id];
    assert Local(s.disk, r);
    hide Local, Yielded;
    forall p | p in r.written
      ensures r.written != {}
    {
    }
    CompletedRead(s, id);
    CompletedWrite(s, id);
    StoredOnDisk(s.disk, s.reqs[id]);
    assert forall p | s.reqs[id].shape.offset <= p < s.reqs[id].shape.End() :: s.reqs[id].shape.Owes(p);
  }

  /** What a request has in its buffer it has read: at some moment of the run
      the driver read that byte for it, and the disk held that value then. */
  lemma {:induction false} ReadFromDisk(s: State, es: seq<Event>, t: State, id: ReqId, p: int) returns (k: int, u: State)
    requires WellFormed(s) && Leads(s, es, t) && id in t.reqs && p in t.reqs[id].buf
    ensures -1 <= k < |es|
    ensures k == -1 ==> id in s.reqs && p in s.reqs[id].buf && s.reqs[id].buf[p] == t.reqs[id].buf[p]
    ensures k >= 0 ==> WellFormed(u) && Leads(s, es[..k], u) && Enabled(u, es[k]) && es[k] == ReadByte(id, p) &&
                       t.reqs[id].buf[p] == ByteAt(u.disk, p)
    decreases |es|
  {
    hide Run, Disciplined, Covers;
    if es == [] {
      k, u := -1, s;
    } else {
      var s1 := Step(s, es[0]);
      k, u := ReadFromDisk(s1, es[1..], t, id, p);
      if k >= 0 {
        assert es[..k + 1][1..] == es[1..][..k] && es[..k + 1][0] == es[0];
        k := k + 1;
      } else if es[0] == ReadByte(id, p) {
        k, u := 0, s;
        assert es[..0] == [];
      } else {
        BufferKept(s, es[0], id, p);
      }
    }
  }

  lemma BufferKept(s: State, e: Event, id: ReqId, p: int)
    requires WellFormed(s) && Enabled(s, e) && id in Step(s, e).reqs && p in Step(s, e).reqs[id].buf && e != ReadByte(id, p)
    ensures id in s.reqs && p in s.reqs[id].buf && s.reqs[id].buf[p] == Step(s, e).reqs[id].buf[p]
  {
    hide Run, Disciplined, Covers;
    match e
    case Begin(shape, script) => RunUntouched(Begun(s, shape, script), s.nextId);
    case ReadByte(_, _) =>
    case WriteByte(_, _) =>
    case Complete(x) => RunUntouched(Put(s, x, s.reqs[x].(script := s.reqs[x].script[1..])), x);
    case Fail(_) =>
    case Wake(x) => RunUntouched(Put(s, x, s.reqs[x].(waitingFor := None)), x);
  }

  // ---- waiting and hulls

  /** A request waits only for one that shares a byte with it, if neither hull
      is empty; and one that shares no byte with any other tracked request
      waits for none. */
  lemma WaitsForNeighbours(s: State, id: ReqId)
    requires WellFormed(s) && id in s.reqs && forall x | x in s.reqs :: s.reqs[x].overlapBytes > 0
    ensures var b := Blocker(s, id);
      b.Some? ==> b.value in s.reqs && b.value != id && exists p :: InOverlap(s.reqs[b.value], p) && InOverlap(s.reqs[id], p)
    ensures (forall x, p | x in s.reqs && x != id && InOverlap(s.reqs[x], p) :: !InOverlap(s.reqs[id], p)) ==> Blocker(s, id).None?
  {
    var b := Blocker(s, id);
    if b.Some? {
      hide InOverlap;
      OverlapsIff(s.reqs[b.value], s.reqs[id]);
    }
  }
}
