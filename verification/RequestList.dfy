/** The mutable request list of a device: the same operations as in the state
    machine, on fields updated in place, with the scan and the run of a
    coroutine as loops.  Whatever sequence of events a device handles, its
    state is one the machine reaches. */
module RequestList {
  import opened Common
  import opened TrackedRequests
  import opened BlockProtocol

  class BlockDriverState {
    var disk: map<int, Byte>
    var trackedRequests: seq<ReqId>
    var requests: map<ReqId, Request>
    var serialisingInFlight: int
    var nextId: ReqId
    var clock: nat

    function Abs(): State
      reads this
    {
      State(disk, trackedRequests, requests, serialisingInFlight, nextId, clock)
    }

    constructor (content: map<int, Byte>)
      ensures Abs() == Initial(content) && Reachable(Abs())
    {
      StartsReachable(content);
      disk, trackedRequests, requests := content, [], map[];
      serialisingInFlight, nextId, clock := 0, 0, 0;
    }

    /** tracked_request_begin */
    method TrackedRequestBegin(shape: Shape, script: seq<Instr>) returns (id: ReqId)
      modifies this
      ensures id == old(nextId)
      ensures Abs() == Begun(old(Abs()), shape, script)
      ensures trackedRequests == [id] + old(trackedRequests) && serialisingInFlight == old(serialisingInFlight)
      ensures id in requests && requests == old(requests)[id := requests[id]]
      ensures var r := requests[id];
        r.overlapOffset == shape.offset && r.overlapBytes == shape.bytes && !r.serialising && r.waitingFor == None
    {
      id := nextId;
      requests := requests[id := Request(shape, false, shape.offset, shape.bytes, None, script,
                                         {}, map[], false, {}, {}, 0)];
      trackedRequests := [id] + trackedRequests;
      nextId := nextId + 1;
    }

    /** tracked_request_end */
    method TrackedRequestEnd(id: ReqId)
      requires id in requests
      modifies this
      ensures Abs() == Ended(old(Abs()), id)
      ensures requests == old(requests) - {id} && forall x :: x in trackedRequests <==> x in old(trackedRequests) && x != id
      ensures serialisingInFlight == old(serialisingInFlight) - if old(requests)[id].serialising then 1 else 0
    {
      if requests[id].serialising {
        serialisingInFlight := serialisingInFlight - 1;
      }
      var i, kept := 0, [];
      while i < |trackedRequests|
        invariant 0 <= i <= |trackedRequests|
        invariant kept + Remove(trackedRequests[i..], id) == Remove(trackedRequests, id)
      {
        assert trackedRequests[i..][0] == trackedRequests[i] && trackedRequests[i..][1..] == trackedRequests[i + 1..];
        if trackedRequests[i] != id {
          kept := kept + [trackedRequests[i]];
        }
        i := i + 1;
      }
      trackedRequests := kept;
      requests := requests - {id};
    }

    /** mark_request_serialising */
    method MarkRequestSerialising(id: ReqId)
      requires id in requests && requests[id].shape.Valid() && requests[id].script != []
      modifies this
      ensures Abs() == Marked(old(Abs()), id)
      ensures serialisingInFlight == old(serialisingInFlight) + if old(requests)[id].serialising then 0 else 1
      ensures trackedRequests == old(trackedRequests) && requests == old(requests)[id := requests[id]] && requests[id].serialising
      ensures var r, q, a := old(requests)[id], requests[id], old(requests)[id].shape.align;
        r.overlapOffset == r.shape.offset && r.overlapBytes == r.shape.bytes ==>
          && q.overlapOffset % a == 0 && q.overlapOffset <= r.shape.offset < q.overlapOffset + a
          && (q.overlapOffset + q.overlapBytes) % a == 0
          && r.shape.End() <= q.overlapOffset + q.overlapBytes < r.shape.End() + a
    {
      Rounding(requests[id].shape.offset, requests[id].shape.align);
      Rounding(requests[id].shape.offset + requests[id].shape.bytes, requests[id].shape.align);
      var r := requests[id];
      var overlapOffset := RoundDown(r.shape.offset, r.shape.align);
      var overlapBytes := RoundUp(r.shape.offset + r.shape.bytes, r.shape.align) - overlapOffset;
      var q := r.(script := r.script[1..], holding := r.serialising && r.holding);
      if !r.serialising {
        serialisingInFlight := serialisingInFlight + 1;
        q := q.(serialising := true, early := r.written);
      }
      q := q.(overlapOffset := Min(q.overlapOffset, overlapOffset), overlapBytes := Max(q.overlapBytes, overlapBytes));
      requests := requests[id := q];
    }

    /** One pass of the loop in wait_serialising_requests: the request to wait
        for, if any.  It stops at the first conflicting request in the list
        that is not itself waiting. */
    method FindBlocker(self: ReqId) returns (b: Option<ReqId>)
      requires self in requests && forall x | x in trackedRequests :: x in requests
      ensures b == Blocker(Abs(), self)
      ensures b.Some? ==>
        var me, req := requests[self], requests[b.value];
        && b.value in trackedRequests && b.value != self && req.waitingFor.None? && (me.serialising || req.serialising)
        && me.overlapOffset < req.overlapOffset + req.overlapBytes && req.overlapOffset < me.overlapOffset + me.overlapBytes
    {
      if serialisingInFlight == 0 {
        return None;
      }
      var me := requests[self];
      var i := 0;
      while i < |trackedRequests|
        invariant 0 <= i <= |trackedRequests|
        invariant Scan(Abs(), self, trackedRequests) == Scan(Abs(), self, trackedRequests[i..])
      {
        var id := trackedRequests[i];
        var req := requests[id];
        assert trackedRequests[i..][0] == id && trackedRequests[i..][1..] == trackedRequests[i + 1..];
        if !(id == self || (!req.serialising && !me.serialising)) {
          if Overlaps(req, me.overlapOffset, me.overlapBytes) {
            if req.waitingFor.None? {
              return Some(id);
            }
          }
        }
        i := i + 1;
      }
      return None;
    }

    /** A coroutine, from where it was entered until it yields or ends. */
    method Enter(id: ReqId)
      requires WellFormed(Abs()) && id in requests
      modifies this
      ensures Abs() == Run(old(Abs()), id)
    {
      hide Marked, Ended, Remove, Blocker;
      ghost var all := Run(Abs(), id);
      while requests[id].script != [] && !IsIo(requests[id].script[0])
        invariant WellFormed(Abs()) && id in requests && Run(Abs(), id) == all
        decreases |requests[id].script|
      {
        var r := requests[id];
        if r.script[0].Mark? {
          MarkKeeps(Abs(), id);
          MarkRequestSerialising(id);
        } else {
          var b := FindBlocker(id);
          if b.Some? {
            requests := requests[id := r.(waitingFor := b, holding := false, stamp := clock)];
            clock := clock + 1;
            return;
          }
          requests := requests[id := r.(script := r.script[1..], holding := true)];
        }
      }
      if requests[id].script == [] {
        TrackedRequestEnd(id);
      } else {
        requests := requests[id := requests[id].(done := {})];
      }
    }

    /** What the device does when something happens to one of its requests. */
    method Handle(e: Event)
      requires WellFormed(Abs()) && Reachable(Abs()) && Enabled(Abs(), e)
      modifies this
      ensures Abs() == Step(old(Abs()), e)
      ensures WellFormed(Abs()) && Reachable(Abs())
    {
      hide Run, Reachable, Disciplined, Covers, Ended, Remove, ToDo;
      StepReachable(Abs(), e);
      match e {
        case Begin(shape, script) =>
          var id := TrackedRequestBegin(shape, script);
          Enter(id);
        case ReadByte(id, p) =>
          var r := requests[id];
          requests := requests[id := r.(buf := r.buf[p := ByteAt(disk, p)], done := r.done + {p})];
        case WriteByte(id, p) =>
          var r := requests[id];
          disk := disk[p := Payload(r, p)];
          if r.shape.Owes(p) {
            r := r.(written := r.written + {p});
          }
          requests := requests[id := r.(done := r.done + {p})];
        case Complete(id) =>
          requests := requests[id := requests[id].(script := requests[id].script[1..])];
          Enter(id);
        case Fail(id) =>
          TrackedRequestEnd(id);
        case Wake(id) =>
          requests := requests[id := requests[id].(waitingFor := None)];
          Enter(id);
      }
    }
  }

  lemma MarkKeeps(s: State, id: ReqId)
    requires WellFormed(s) && id in s.reqs && s.reqs[id].script != []
    ensures WellFormed(Marked(s, id)) && id in Marked(s, id).reqs && |Marked(s, id).reqs[id].script| < |s.reqs[id].script|
  {
  }

  lemma StartsReachable(disk: map<int, Byte>)
    ensures Reachable(Initial(disk))
  {
    assert Leads(Initial(disk), [], Initial(disk));
  }

  lemma {:induction false} LeadsOn(s: State, es: seq<Event>, t: State, e: Event)
    requires WellFormed(s) && Leads(s, es, t) && WellFormed(t) && Enabled(t, e) && WellFormed(Step(t, e))
    ensures Leads(s, es + [e], Step(t, e))
    decreases |es|
  {
    hide Enabled, Step, WellFormed;
    if es == [] {
      assert (es + [e])[1..] == [];
    } else {
      LeadsOn(Step(s, es[0]), es[1..], t, e);
      assert (es + [e])[1..] == es[1..] + [e];
    }
  }

  lemma StepReachable(s: State, e: Event)
    requires WellFormed(s) && Reachable(s) && Enabled(s, e)
    ensures WellFormed(Step(s, e)) && Reachable(Step(s, e))
  {
    hide Step, Inv, Enabled, Shared;
    ReachableInv(s);
    StepInv(s, e);
    InvWellFormed(Step(s, e));
    var disk, es :| Leads(Initial(disk), es, s);
    LeadsOn(Initial(disk), es, s, e);
  }

  lemma InvWellFormed(s: State)
    requires Inv(s)
    ensures WellFormed(s)
  {
  }
}
