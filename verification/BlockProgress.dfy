/** Progress of the request-tracking protocol: waiting_for never forms a
    cycle, some request can always move, and without new arrivals every run
    is finite, so the device drains. */
module BlockProgress {
  import opened Common
  import opened TrackedRequests
  import opened BlockProtocol

  /** The asserts of the write path: a request blocked in the wait of
      bdrv_aligned_pwritev is not serialising, and a request blocked anywhere
      has read nothing yet that it will write back. */
  lemma WaitAssertsHold(s: State, id: ReqId)
    requires Reachable(s) && id in s.reqs && s.reqs[id].waitingFor.Some?
    ensures s.reqs[id].script != [] && s.reqs[id].script[0].Wait?
    ensures s.reqs[id].script[0].site.AtWrite? ==> !s.reqs[id].serialising
    ensures s.reqs[id].buf == map[]
  {
    ReachableInv(s);
    hide Exclusive, Ordered;
    assert Local(s.disk, s.reqs[id]) && Yielded(s.reqs[id]);
    assert s.reqs[id].buf.Keys == {};
  }

  /** All driver I/O stays inside the hull the request announced. */
  lemma IoInsideHull(s: State, id: ReqId)
    requires Reachable(s) && InIo(s, id)
    ensures var r := s.reqs[id];
      r.overlapOffset <= r.script[0].lo <= r.script[0].hi <= r.overlapOffset + r.overlapBytes
  {
    ReachableInv(s);
    hide Exclusive, Ordered;
    assert Local(s.disk, s.reqs[id]) && Yielded(s.reqs[id]);
  }

  /** What a copy-on-read request has read is still the disk content, so the
      cluster it writes back, and the data it returns, are current. */
  lemma SerialisingReadIsCurrent(s: State, id: ReqId, p: int)
    requires Reachable(s) && InIo(s, id) && s.reqs[id].serialising && s.reqs[id].shape.data == []
    requires p in s.reqs[id].buf
    ensures s.reqs[id].buf[p] == ByteAt(s.disk, p)
  {
    ReachableInv(s);
    hide Exclusive, Ordered;
    assert Local(s.disk, s.reqs[id]) && Yielded(s.reqs[id]);
  }

  /** The counter is the number of tracked serialising requests, and so the
      early return of the wait always agrees with the full scan. */
  lemma CounterIsExact(s: State, id: ReqId)
    requires Reachable(s) && WellFormed(s)
    ensures s.serialisingInFlight == |Serialising(s)|
    ensures id in s.reqs ==> Blocker(s, id) == Scan(s, id, s.list)
  {
    ReachableInv(s);
    hide Exclusive, Ordered, Local;
    if id in s.reqs {
      EarlyReturnAgrees(s, id);
    }
  }

  // ---- no cycle

  ghost predicate WaitPath(s: State, path: seq<ReqId>) {
    |path| >= 2 && forall i :: 0 <= i < |path| - 1 ==> WaitsFor(s, path[i], path[i + 1])
  }

  lemma {:induction false} StampsRise(s: State, path: seq<ReqId>)
    requires Ordered(s) && WaitPath(s, path) && (forall x | x in path :: x in s.reqs)
    requires s.reqs[path[|path| - 1]].waitingFor.Some?
    ensures s.reqs[path[0]].stamp < s.reqs[path[|path| - 1]].stamp
    decreases |path|
  {
    assert WaitsFor(s, path[0], path[1]);
    if |path| > 2 {
      var rest := path[1..];
      forall i | 0 <= i < |rest| - 1
        ensures WaitsFor(s, rest[i], rest[i + 1])
      {
        assert WaitsFor(s, path[i + 1], path[i + 2]);
      }
      assert WaitsFor(s, path[1], path[2]);
      StampsRise(s, rest);
    }
  }

  /** No request waits, directly or through others, for itself. */
  lemma NoWaitCycle(s: State, path: seq<ReqId>)
    requires Reachable(s) && WaitPath(s, path)
    ensures path[0] != path[|path| - 1]
  {
    ReachableInv(s);
    if path[0] == path[|path| - 1] {
      assert WaitsFor(s, path[0], path[1]);
      forall i | 0 <= i < |path|
        ensures path[i] in s.reqs
      {
        assert i < |path| - 1 ==> WaitsFor(s, path[i], path[i + 1]);
      }
      StampsRise(s, path);
    }
  }

  // ---- someone can move

  /** Of a non-empty list of waiting requests, one that started to wait last. */
  lemma {:induction false} LastWaiter(s: State, list: seq<ReqId>) returns (w: ReqId)
    requires list != [] && forall x | x in list :: x in s.reqs
    ensures w in list && forall x | x in list :: s.reqs[x].stamp <= s.reqs[w].stamp
  {
    w := list[0];
    if |list| > 1 {
      var v := LastWaiter(s, list[1..]);
      if s.reqs[v].stamp > s.reqs[w].stamp {
        w := v;
      }
    }
  }

  function Waiters(s: State, list: seq<ReqId>): (r: seq<ReqId>)
    requires forall x | x in list :: x in s.reqs
    ensures forall x :: x in r <==> x in list && s.reqs[x].waitingFor.Some?
  {
    if list == [] then []
    else (if s.reqs[list[0]].waitingFor.Some? then [list[0]] else []) + Waiters(s, list[1..])
  }

  lemma IoCanMove(s: State, id: ReqId) returns (e: Event)
    requires InIo(s, id)
    ensures Enabled(s, e) && !e.Begin? && !e.Fail?
  {
    if ToDo(s.reqs[id]) == {} {
      e := Complete(id);
    } else {
      var p :| p in ToDo(s.reqs[id]);
      e := if s.reqs[id].script[0].Read? then ReadByte(id, p) else WriteByte(id, p);
    }
  }

  /** Whoever started to wait last waits for a request that is not waiting. */
  lemma LastWaiterTarget(s: State, w: ReqId)
    requires WellFormed(s) && Ordered(s) && w in Waiters(s, s.list)
    requires forall x | x in Waiters(s, s.list) :: x in s.reqs && s.reqs[x].stamp <= s.reqs[w].stamp
    ensures var b := s.reqs[w].waitingFor.value; b in s.reqs ==> s.reqs[b].waitingFor.None?
  {
    var b := s.reqs[w].waitingFor.value;
    if b in s.reqs && s.reqs[b].waitingFor.Some? {
      assert WaitsFor(s, w, b);
    }
  }

  /** Some tracked request is not waiting, or waits for one that has ended. */
  lemma NotAllStuck(s: State) returns (id: ReqId)
    requires WellFormed(s) && Ordered(s) && s.reqs != map[]
    ensures id in s.reqs
    ensures s.reqs[id].waitingFor.Some? ==> s.reqs[id].waitingFor.value !in s.reqs
  {
    hide Ordered;
    var ws := Waiters(s, s.list);
    if ws == [] {
      id :| id in s.reqs;
      assert id in s.list && id !in ws;
    } else {
      id := LastWaiter(s, ws);
      LastWaiterTarget(s, id);
      if s.reqs[id].waitingFor.value in s.reqs {
        id := s.reqs[id].waitingFor.value;
      }
    }
  }

  /** No deadlock: while any request is tracked, one of them can move without
      a new arrival and without an error. */
  lemma SomeoneCanMove(s: State) returns (e: Event)
    requires Reachable(s) && s.reqs != map[]
    ensures Enabled(s, e) && !e.Begin? && !e.Fail?
  {
    hide Exclusive, Local, Ordered, Disciplined, Covers, Reachable, Serialising;
    ReachableInv(s);
    var id := NotAllStuck(s);
    e := RequestCanMove(s, id);
  }

  lemma RequestCanMove(s: State, id: ReqId) returns (e: Event)
    requires id in s.reqs && Yielded(s.reqs[id])
    requires s.reqs[id].waitingFor.Some? ==> s.reqs[id].waitingFor.value !in s.reqs
    ensures Enabled(s, e) && !e.Begin? && !e.Fail?
  {
    hide Disciplined, Covers;
    if s.reqs[id].waitingFor.Some? {
      e := Wake(id);
    } else {
      e := IoCanMove(s, id);
    }
  }

  // ---- runs without arrivals are finite

  /** Steps the rest of a script can take at most. */
  function Cost(script: seq<Instr>): (c: nat)
    ensures c >= 1
  {
    if script == [] then 1
    else (if IsIo(script[0]) && script[0].lo < script[0].hi then script[0].hi - script[0].lo else 0) + 1 + Cost(script[1..])
  }

  function Progress(r: Request): nat {
    if r.script != [] && IsIo(r.script[0]) then |r.done * Range(r.script[0].lo, r.script[0].hi)| else 0
  }

  lemma SubsetSize(a: set<int>, b: set<int>)
    requires a <= b
    ensures |a| <= |b|
  {
    assert a + (b - a) == b;
  }

  function Work(r: Request): (w: int) {
    Cost(r.script) - Progress(r)
  }

  lemma WorkPositive(r: Request)
    ensures Work(r) >= 1
  {
    if r.script != [] && IsIo(r.script[0]) {
      RangeSize(r.script[0].lo, r.script[0].hi);
      SubsetSize(r.done * Range(r.script[0].lo, r.script[0].hi), Range(r.script[0].lo, r.script[0].hi));
    }
  }

  function TotalWork(reqs: map<ReqId, Request>, list: seq<ReqId>): int
    requires forall x | x in list :: x in reqs
  {
    if list == [] then 0 else Work(reqs[list[0]]) + TotalWork(reqs, list[1..])
  }

  lemma {:induction false} TotalWorkUpdate(reqs: map<ReqId, Request>, list: seq<ReqId>, id: ReqId, r: Request)
    requires (forall x | x in list :: x in reqs) && id in reqs && Work(r) <= Work(reqs[id])
    ensures TotalWork(reqs[id := r], list) <= TotalWork(reqs, list)
    ensures id in list && Work(r) < Work(reqs[id]) ==> TotalWork(reqs[id := r], list) < TotalWork(reqs, list)
  {
    if list != [] {
      TotalWorkUpdate(reqs, list[1..], id, r);
    }
  }

  lemma {:induction false} TotalWorkRemove(reqs: map<ReqId, Request>, list: seq<ReqId>, id: ReqId)
    requires forall x | x in list :: x in reqs
    ensures TotalWork(reqs - {id}, Remove(list, id)) <= TotalWork(reqs, list)
    ensures id in list ==> TotalWork(reqs - {id}, Remove(list, id)) < TotalWork(reqs, list)
    ensures |Remove(list, id)| <= |list|
  {
    if list != [] {
      TotalWorkRemove(reqs, list[1..], id);
      WorkPositive(reqs[list[0]]);
    }
  }

  lemma {:induction false} TotalWorkNonNegative(reqs: map<ReqId, Request>, list: seq<ReqId>)
    requires forall x | x in list :: x in reqs
    ensures TotalWork(reqs, list) >= 0
  {
    if list != [] {
      TotalWorkNonNegative(reqs, list[1..]);
      WorkPositive(reqs[list[0]]);
    }
  }

  predicate ImmediatelyBlocked(s: State, id: ReqId)
    requires id in s.reqs && forall x | x in s.list :: x in s.reqs
  {
    s.reqs[id].script != [] && s.reqs[id].script[0].Wait? && Blocker(s, id).Some?
  }

  /** A run of id ends it, blocks it where it is, or shortens its script. */
  ghost predicate RunResult(s: State, t: State, id: ReqId)
    requires id in s.reqs && forall x | x in s.list :: x in s.reqs
  {
    var r := s.reqs[id];
    if id in t.reqs
    then t.list == s.list && t.reqs == s.reqs[id := t.reqs[id]] &&
         Work(t.reqs[id]) <= Cost(r.script) &&
         (ImmediatelyBlocked(s, id) ==> t == Blocked(s, id, Blocker(s, id).value)) &&
         (!ImmediatelyBlocked(s, id) && (r.script == [] || !IsIo(r.script[0])) ==> Work(t.reqs[id]) < Cost(r.script))
    else t.list == Remove(s.list, id) && t.reqs == s.reqs - {id}
  }

  /** The result of the rest of a run is the result of all of it. */
  lemma RunResultStep(s: State, m: State, t: State, id: ReqId)
    requires id in s.reqs && (forall x | x in s.list :: x in s.reqs)
    requires id in m.reqs && m.list == s.list && m.reqs == s.reqs[id := m.reqs[id]]
    requires s.reqs[id].script != [] && m.reqs[id].script == s.reqs[id].script[1..] && !IsIo(s.reqs[id].script[0])
    requires !ImmediatelyBlocked(s, id) && RunResult(m, t, id)
    ensures RunResult(s, t, id)
  {
    hide Work, ImmediatelyBlocked;
    assert Cost(m.reqs[id].script) < Cost(s.reqs[id].script);
  }

  lemma {:induction false} RunWork(s: State, id: ReqId)
    requires WellFormed(s) && id in s.reqs
    ensures RunResult(s, Run(s, id), id)
    decreases |s.reqs[id].script|
  {
    hide Conflict, Overlaps, Scan, Blocks;
    var r := s.reqs[id];
    if r.script != [] && r.script[0].Mark? {
      hide RunResult;
      var m := Marked(s, id);
      RunWork(m, id);
      RunResultStep(s, m, Run(m, id), id);
    } else if r.script != [] && r.script[0].Wait? && Blocker(s, id).None? {
      hide RunResult;
      var m := Passed(s, id);
      RunWork(m, id);
      RunResultStep(s, m, Run(m, id), id);
    } else {
      hide Blocker;
      assert RunResult(s, Run(s, id), id);
    }
  }

  predicate DeadWait(reqs: map<ReqId, Request>, x: ReqId)
    requires x in reqs
  {
    reqs[x].waitingFor.Some? && reqs[x].waitingFor.value !in reqs
  }

  function DeadWaits(reqs: map<ReqId, Request>, list: seq<ReqId>): (n: nat)
    requires forall x | x in list :: x in reqs
    ensures n <= |list|
  {
    if list == [] then 0
    else (if DeadWait(reqs, list[0]) then 1 else 0) + DeadWaits(reqs, list[1..])
  }

  lemma {:induction false} DeadWaitsUpdate(reqs: map<ReqId, Request>, list: seq<ReqId>, id: ReqId, r: Request)
    requires (forall x | x in list :: x in reqs) && id in reqs
    requires DeadWait(reqs, id) && !DeadWait(reqs[id := r], id)
    ensures DeadWaits(reqs[id := r], list) <= DeadWaits(reqs, list)
    ensures id in list ==> DeadWaits(reqs[id := r], list) < DeadWaits(reqs, list)
  {
    if list != [] {
      DeadWaitsUpdate(reqs, list[1..], id, r);
    }
  }

  /** Each event that is not an arrival takes work away, or points a request
      that waited for an ended one at a live one. */
  ghost predicate Closer(s: State, t: State)
    requires WellFormed(s) && WellFormed(t)
  {
    && |t.list| <= |s.list|
    && (|| TotalWork(t.reqs, t.list) < TotalWork(s.reqs, s.list)
        || (TotalWork(t.reqs, t.list) == TotalWork(s.reqs, s.list) &&
            DeadWaits(t.reqs, t.list) < DeadWaits(s.reqs, s.list)))
  }

  lemma ShorterIsCloser(s: State, t: State, id: ReqId)
    requires WellFormed(s) && WellFormed(t) && id in s.reqs
    requires if id in t.reqs
             then t.list == s.list && t.reqs == s.reqs[id := t.reqs[id]] && Work(t.reqs[id]) < Work(s.reqs[id])
             else t.list == Remove(s.list, id) && t.reqs == s.reqs - {id}
    ensures Closer(s, t)
  {
    hide Work;
    if id in t.reqs {
      TotalWorkUpdate(s.reqs, s.list, id, t.reqs[id]);
    } else {
      TotalWorkRemove(s.reqs, s.list, id);
    }
  }

  lemma CompleteCloser(s: State, id: ReqId)
    requires Inv(s) && Enabled(s, Complete(id)) && WellFormed(Step(s, Complete(id)))
    ensures Closer(s, Step(s, Complete(id)))
  {
    hide Work, Cost, Yielded, Local, Exclusive, Ordered, ImmediatelyBlocked, Run, Closer, Disciplined, Covers;
    var r := s.reqs[id];
    var m := Put(s, id, r.(script := r.script[1..]));
    FinishedIoCost(r);
    CompleteRunning(s, id);
    RunWork(m, id);
    RunIsLocal(s, m, Run(m, id), id);
    ShorterIsCloser(s, Run(m, id), id);
  }

  lemma FinishedIoCost(r: Request)
    requires r.script != [] && IsIo(r.script[0]) && ToDo(r) == {}
    ensures Cost(r.script[1..]) < Work(r)
  {
    var whole := Range(r.script[0].lo, r.script[0].hi);
    assert forall p :: p in whole ==> p in r.done by {
      forall p | p in whole
        ensures p in r.done
      {
        assert p !in ToDo(r);
      }
    }
    assert r.done * whole == whole;
    RangeSize(r.script[0].lo, r.script[0].hi);
  }

  lemma RunIsLocal(s: State, m: State, t: State, id: ReqId)
    requires id in s.reqs && id in m.reqs && m.reqs == s.reqs[id := m.reqs[id]]
    ensures id in t.reqs && t.reqs == m.reqs[id := t.reqs[id]] ==> t.reqs == s.reqs[id := t.reqs[id]]
    ensures t.reqs == m.reqs - {id} ==> t.reqs == s.reqs - {id}
  {
  }

  lemma WakeCloser(s: State, id: ReqId)
    requires Inv(s) && Enabled(s, Wake(id)) && WellFormed(Step(s, Wake(id)))
    ensures Closer(s, Step(s, Wake(id)))
  {
    hide Yielded, Local, Exclusive, Ordered, Run, Closer, Disciplined, Covers;
    WaitingCost(s.reqs[id]);
    var m := Put(s, id, s.reqs[id].(waitingFor := None));
    WakeRunning(s, id);
    if ImmediatelyBlocked(m, id) {
      ReblockedCloser(s, m, id);
    } else {
      UnblockedCloser(s, m, id);
    }
  }

  lemma UnblockedCloser(s: State, m: State, id: ReqId)
    requires WellFormed(s) && WellFormed(m) && id in s.reqs && m == Put(s, id, s.reqs[id].(waitingFor := None))
    requires s.reqs[id].script != [] && s.reqs[id].script[0].Wait? && Work(s.reqs[id]) == Cost(s.reqs[id].script)
    requires WellFormed(Run(m, id)) && !ImmediatelyBlocked(m, id)
    ensures Closer(s, Run(m, id))
  {
    hide Work, Cost, Scan, Run, Closer;
    RunWork(m, id);
    RunIsLocal(s, m, Run(m, id), id);
    ShorterIsCloser(s, Run(m, id), id);
  }

  lemma ReblockedCloser(s: State, m: State, id: ReqId)
    requires WellFormed(s) && WellFormed(m) && Enabled(s, Wake(id)) && m == Put(s, id, s.reqs[id].(waitingFor := None))
    requires WellFormed(Run(m, id)) && ImmediatelyBlocked(m, id)
    ensures Closer(s, Run(m, id))
  {
    hide Work, Cost, Scan, Closer, DeadWait, Disciplined, Covers;
    var t := Blocked(m, id, Blocker(m, id).value);
    assert Run(m, id) == t;
    RunIsLocal(s, m, t, id);
    ReblockedAlive(s, m, id);
    ReblockedIsCloser(s, t, id);
  }

  lemma WaitingCost(r: Request)
    requires Yielded(r) && r.waitingFor.Some?
    ensures r.script != [] && r.script[0].Wait? && Work(r) == Cost(r.script)
  {
  }

  lemma ReblockedAlive(s: State, m: State, id: ReqId)
    requires Enabled(s, Wake(id)) && m == Put(s, id, s.reqs[id].(waitingFor := None))
    requires WellFormed(m) && ImmediatelyBlocked(m, id)
    ensures var t := Blocked(m, id, Blocker(m, id).value);
      DeadWait(s.reqs, id) && !DeadWait(t.reqs, id) && Work(t.reqs[id]) == Work(s.reqs[id]) && t.list == s.list
  {
    hide Cost, Conflict;
  }

  lemma {:induction false} TotalWorkSame(reqs: map<ReqId, Request>, list: seq<ReqId>, id: ReqId, r: Request)
    requires (forall x | x in list :: x in reqs) && id in reqs && Work(r) == Work(reqs[id])
    ensures TotalWork(reqs[id := r], list) == TotalWork(reqs, list)
  {
    if list != [] {
      TotalWorkSame(reqs, list[1..], id, r);
    }
  }

  lemma ReblockedIsCloser(s: State, t: State, id: ReqId)
    requires WellFormed(s) && WellFormed(t) && id in s.reqs && id in t.reqs
    requires t.list == s.list && t.reqs == s.reqs[id := t.reqs[id]] && Work(t.reqs[id]) == Work(s.reqs[id])
    requires DeadWait(s.reqs, id) && !DeadWait(t.reqs, id)
    ensures Closer(s, t)
  {
    hide Work;
    TotalWorkSame(s.reqs, s.list, id, t.reqs[id]);
    DeadWaitsUpdate(s.reqs, s.list, id, t.reqs[id]);
  }

  lemma ByteCloser(s: State, e: Event)
    requires Inv(s) && Enabled(s, e) && (e.ReadByte? || e.WriteByte?) && WellFormed(Step(s, e))
    ensures Closer(s, Step(s, e))
  {
    hide Local, Yielded, Exclusive, Ordered, Disciplined, Covers, Work, Cost, Progress, Closer;
    var t := Step(s, e);
    MovedByteWork(s.reqs[e.id], t.reqs[e.id], e.p);
    ShorterIsCloser(s, t, e.id);
  }

  lemma MovedByteWork(r: Request, r': Request, p: int)
    requires r.script != [] && IsIo(r.script[0]) && p in ToDo(r)
    requires r'.script == r.script && r'.done == r.done + {p}
    ensures Work(r') < Work(r)
  {
    var whole := Range(r.script[0].lo, r.script[0].hi);
    assert p in whole && p !in r.done;
    assert r'.done * whole == r.done * whole + {p};
  }

  lemma StepCloser(s: State, e: Event)
    requires Inv(s) && Enabled(s, e) && !e.Begin? && WellFormed(Step(s, e))
    ensures Closer(s, Step(s, e))
  {
    hide Local, Yielded, Exclusive, Ordered, Closer;
    match e
    case ReadByte(_, _) => ByteCloser(s, e);
    case WriteByte(_, _) => ByteCloser(s, e);
    case Complete(id) => CompleteCloser(s, id);
    case Fail(id) => ShorterIsCloser(s, Step(s, e), id);
    case Wake(id) => WakeCloser(s, id);
  }

  /** More events than this cannot happen without a new arrival, when at most
      n requests are tracked. */
  function Bound(s: State, n: nat): int
    requires forall x | x in s.list :: x in s.reqs
  {
    TotalWork(s.reqs, s.list) * (n + 1) + DeadWaits(s.reqs, s.list)
  }

  lemma WeightedLess(w: int, w': int, d: nat, d': nat, n: nat)
    requires w' < w || (w' == w && d' < d)
    requires d' <= n
    ensures w' * (n + 1) + d' < w * (n + 1) + d
  {
    if w' < w {
      Product(w - w' - 1, n + 1);
      assert (w - w' - 1) * (n + 1) == w * (n + 1) - w' * (n + 1) - (n + 1);
    }
  }

  lemma Product(a: nat, b: nat)
    ensures a * b >= 0
  {
  }

  lemma CloserBound(s: State, t: State, n: nat)
    requires WellFormed(s) && WellFormed(t) && Closer(s, t) && |s.list| <= n
    ensures Bound(t, n) < Bound(s, n) && |t.list| <= n
  {
    hide TotalWork, DeadWaits;
    WeightedLess(TotalWork(s.reqs, s.list), TotalWork(t.reqs, t.list),
                 DeadWaits(s.reqs, s.list), DeadWaits(t.reqs, t.list), n);
  }

  /** Without arrivals a run has at most Bound events ... */
  lemma {:induction false} RunsAreFinite(s: State, es: seq<Event>, t: State, n: nat)
    requires Inv(s) && Leads(s, es, t) && |s.list| <= n
    requires forall i | 0 <= i < |es| :: !es[i].Begin?
    ensures |es| <= Bound(s, n)
    decreases |es|
  {
    hide Local, Yielded, Exclusive, Ordered, Bound, Closer, Disciplined, Covers, Step;
    if es == [] {
      BoundNonNegative(s, n);
    } else {
      StepInv(s, es[0]);
      StepCloser(s, es[0]);
      CloserBound(s, Step(s, es[0]), n);
      RunsAreFinite(Step(s, es[0]), es[1..], t, n);
    }
  }

  lemma BoundNonNegative(s: State, n: nat)
    requires forall x | x in s.list :: x in s.reqs
    ensures Bound(s, n) >= 0
  {
    TotalWorkNonNegative(s.reqs, s.list);
    Product(TotalWork(s.reqs, s.list), n + 1);
  }

  /** ... and one that cannot go on has ended every request: the device
      drains. */
  lemma StuckMeansDrained(s: State)
    requires Reachable(s) && forall e :: Enabled(s, e) ==> e.Begin? || e.Fail?
    ensures s.reqs == map[]
  {
    if s.reqs != map[] {
      var e := SomeoneCanMove(s);
    }
  }
}
